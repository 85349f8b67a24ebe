/** The contradiction run as it executes (src/contradictions.rs) against a stored state updated in
    place (src/state.rs), proved equal to the run said on values. */
module ContradictionRun {
  import opened Options
  import opened Ordering
  import C = Contradictions
  import opened RunLaws

  type Path = C.Path
  type PairKey = C.PairKey

  ghost predicate Ordered(k: PairKey) { TextLe(k.0, k.1) }

  ghost predicate OrderedKeys<V>(m: map<PairKey, V>) { forall k :: k in m ==> Ordered(k) }

  /** The stored tables: current documents, analysed markers, pair rows. */
  class StateDb {
    var documents: map<Path, C.Hash>
    var analyzed: map<Path, C.Hash>
    var pairs: map<PairKey, C.Row>

    /** Each pair has one row, under its ordered key. */
    ghost predicate Valid()
      reads this
    {
      OrderedKeys(pairs)
    }

    function View(): C.Db
      reads this
    {
      C.Db(documents, analyzed, pairs)
    }

    constructor (db: C.Db)
      requires OrderedKeys(db.pairs)
      ensures Valid() && View() == db
    {
      documents, analyzed, pairs := db.documents, db.analyzed, db.pairs;
    }

    method Prune()
      requires Valid()
      modifies this`analyzed, this`pairs
      ensures Valid() && View() == C.Prune(old(View()))
    {
      if documents == map[] { return; }
      analyzed := map p | p in analyzed && p in documents :: analyzed[p];
      pairs := map k | k in pairs && k.0 in documents && k.1 in documents :: pairs[k];
    }

    /** Store a pair's row; a pair given the wrong way round is swapped, hashes with it. */
    method Upsert(a: Path, b: Path, row: C.Row)
      requires Valid()
      modifies this`pairs
      ensures Valid() && pairs == old(pairs)[C.KeyOf(a, b) := if C.KeyOf(a, b) == (a, b) then row
                                                   else row.(hashA := row.hashB, hashB := row.hashA)]
    {
      TextTotal(a, b);
      if !TextLe(a, b) {
        pairs := pairs[(b, a) := row.(hashA := row.hashB, hashB := row.hashA)];
      } else {
        pairs := pairs[(a, b) := row];
      }
    }

    method MarkAnalyzed(done: seq<Path>)
      requires Known(View(), done)
      modifies this`analyzed
      ensures View() == C.Mark(old(View()), done)
    {
      for i := 0 to |done|
        invariant analyzed == old(analyzed) + map p | p in done[..i] :: documents[p]
      {
        analyzed := analyzed[done[i] := documents[done[i]]];
        assert done[..i + 1] == done[..i] + [done[i]];
      }
      assert done[..|done|] == done;
    }

    method DeleteStale(done: seq<Path>)
      requires Valid() && Known(View(), done)
      modifies this`analyzed, this`pairs
      ensures Valid() && View() == C.DropStale(old(View()), done)
    {
      for i := 0 to |done|
        invariant Valid() && View() == C.DropStale(old(View()), done[..i])
      {
        var p := done[i];
        assert done[..i + 1][..i] == done[..i];
        analyzed := analyzed - set k | k in pairs && C.StaleFor(k, pairs[k], p, documents[p]) :: C.Other(k, p);
        pairs := pairs - set k | k in pairs && C.StaleFor(k, pairs[k], p, documents[p]);
        assert View() == C.DropStale(old(View()), done[..i + 1]) by {
          var db := C.DropStale(old(View()), done[..i]);
          var stale := set k | k in db.pairs && C.StaleFor(k, db.pairs[k], p, db.documents[p]);
          assert (set k | k in db.pairs && C.StaleFor(k, db.pairs[k], p, db.documents[p]) :: C.Other(k, p))
              == (set k | k in stale :: C.Other(k, p));
        }
      }
      assert done[..|done|] == done;
    }
  }

  /** What the run counts while it goes. */
  class Counters {
    var conflicts: nat
    var candidates: nat
    var errors: nat

    constructor ()
      ensures conflicts == 0 && candidates == 0 && errors == 0
    {
      conflicts, candidates, errors := 0, 0, 0;
    }
  }

  /** Best score per known other document at or above the floor. */
  method BestHits(hits: seq<C.Hit>, path: Path, known: set<Path>, floor: real) returns (best: map<Path, real>)
    ensures best == C.BestScores(hits, path, known, floor)
  {
    best := map[];
    for i := 0 to |hits|
      invariant best == C.BestScores(hits[..i], path, known, floor)
    {
      var hit := hits[i];
      assert hits[..i + 1][..i] == hits[..i];
      if hit.file.None? { continue; }
      var target := hit.file.value;
      if target == path || hit.score < floor || target !in known { continue; }
      if target in best {
        best := best[target := if best[target] >= hit.score then best[target] else hit.score];
      } else {
        best := best[target := hit.score];
      }
    }
    assert hits[..|hits|] == hits;
  }

  /** A document's neighbours, best score first, cut to the top few. */
  method RankHits(env: C.Env, db: C.Db, path: Path, hits: seq<C.Hit>) returns (ranked: seq<C.Scored>)
    requires path in db.documents
    ensures ranked == C.Neighbours(env, db.documents.Keys, path, hits) && Ranked(db, path, ranked)
  {
    var best := BestHits(hits, path, db.documents.Keys, env.params.minSimilarity);
    C.RankOrder();
    ranked := Sorted(set p | p in best :: (p, best[p]), C.RankLe);
    if |ranked| > env.params.topK { ranked := ranked[..env.params.topK]; }
    C.TopKKnown(hits, path, db.documents.Keys, env.params.topK, env.params.minSimilarity);
  }

  /** The pairs a document's ranked neighbours add to the work. */
  method Require(db: C.Db, judge: bool, path: Path, ranked: seq<C.Scored>, before: map<PairKey, C.Work>)
    returns (work: map<PairKey, C.Work>, required: seq<PairKey>)
    requires Ranked(db, path, ranked)
    ensures C.Acc(work, required) == C.NeedRun(db, judge, path, before, ranked)
  {
    work, required := before, [];
    for i := 0 to |ranked|
      invariant C.Acc(work, required) == C.NeedRun(db, judge, path, before, ranked[..i])
    {
      var (neighbour, score) := ranked[i];
      var key := C.KeyOf(path, neighbour);
      var hashA, hashB := db.documents[key.0], db.documents[key.1];
      assert ranked[..i + 1][..i] == ranked[..i];
      if C.IsSettled(C.Lookup(db.pairs, key), hashA, hashB, judge) { continue; }
      if key !in work { work := work[key := C.Work(hashA, hashB, score)]; }
      work := work[key := work[key].(similarity := C.MaxScore(work[key].similarity, score))];
      required := required + [key];
    }
    assert ranked[..|ranked|] == ranked;
  }

  /** Phase 1: scan the changed documents until done or cancelled. */
  method ScanChanged(env: C.Env, db: C.Db)
    returns (work: map<PairKey, C.Work>, needs: seq<C.Need>, errors: nat, scanned: nat, cancelled: bool)
    ensures C.Scan(work, needs, errors) == C.Scanned(env, db)
    ensures scanned == |needs| && cancelled == (C.Visited(env, db) < |C.ScanOrder(db)|)
  {
    hide C.ScanOrder, C.NeedRun, C.TopK, C.Changed;
    var changed := C.ScanOrder(db);
    work, needs, errors, scanned, cancelled := map[], [], 0, 0, false;
    var i := 0;
    while i < |changed|
      invariant i <= |changed|
      invariant C.Visited(env, db) == C.RoundsBefore(env.cancelScan, |changed|, i)
      invariant C.Scan(work, needs, errors) == C.ScanRun(env, db, changed[..i])
      invariant scanned == |needs| && !cancelled
    {
      if env.cancelScan(i) {
        cancelled := true;
        break;
      }
      var path := changed[i];
      i := i + 1;
      assert changed[..i][..i - 1] == changed[..i - 1];
      if env.neighbours(path).None? {
        errors := errors + 1;
        continue;
      }
      scanned := scanned + 1;
      var ranked := RankHits(env, db, path, env.neighbours(path).value);
      var required;
      work, required := Require(db, env.hasJudge, path, ranked, work);
      needs := needs + [C.Need(path, required)];
    }
    assert changed[..|changed|] == changed;
  }

  /** The retried pairs outside `left` have been added to those found. */
  ghost predicate Added(
      work: map<PairKey, C.Work>, found: map<PairKey, C.Work>, retries: map<PairKey, C.Work>, left: set<PairKey>) {
    forall k :: AddedAt(work, found, retries, left, k)
  }

  ghost predicate AddedAt(
    work: map<PairKey, C.Work>, found: map<PairKey, C.Work>, retries: map<PairKey, C.Work>, left: set<PairKey>,
    k: PairKey) {
    C.Lookup(work, k) == if k in found then Some(found[k])
                         else if k in left then None
                         else C.Lookup(retries, k)
  }

  lemma AllAdded(work: map<PairKey, C.Work>, found: map<PairKey, C.Work>, retries: map<PairKey, C.Work>)
    requires Added(work, found, retries, {})
    ensures work == retries + found
  {
    forall k
      ensures C.Lookup(work, k) == C.Lookup(retries + found, k)
    {
      assert AddedAt(work, found, retries, {}, k);
    }
    SameLookups(work, retries + found);
  }

  lemma SameLookups(a: map<PairKey, C.Work>, b: map<PairKey, C.Work>)
    requires forall k :: C.Lookup(a, k) == C.Lookup(b, k)
    ensures a == b
  {
    forall k
      ensures k in a <==> k in b
      ensures k in a ==> k in b && a[k] == b[k]
    {
      assert C.Lookup(a, k) == C.Lookup(b, k);
    }
  }

  lemma NoneAdded(found: map<PairKey, C.Work>, db: C.Db)
    ensures Added(found, found, C.Retries(db), db.pairs.Keys)
  {
  }

  lemma OneAdded(work: map<PairKey, C.Work>, found: map<PairKey, C.Work>, db: C.Db, left: set<PairKey>, key: PairKey)
    requires Added(work, found, C.Retries(db), left) && key in left
    ensures (key in work <==> key in found)
    ensures var retries := C.Retries(db);
      Added(if key in retries && key !in work then work[key := retries[key]] else work, found, retries, left - {key})
  {
    var retries := C.Retries(db);
    var work' := if key in retries && key !in work then work[key := retries[key]] else work;
    assert AddedAt(work, found, retries, left, key);
    forall k
      ensures AddedAt(work', found, retries, left - {key}, k)
    {
      assert AddedAt(work, found, retries, left, k);
    }
  }

  /** Phase 2: pairs stored without a verdict are tried again, taken in any order. */
  method AddRetries(db: C.Db, found: map<PairKey, C.Work>) returns (work: map<PairKey, C.Work>)
    ensures work == C.Retries(db) + found
  {
    hide Added, AddedAt;
    work := found;
    var left := db.pairs.Keys;
    NoneAdded(found, db);
    while left != {}
      invariant left <= db.pairs.Keys && Added(work, found, C.Retries(db), left)
      decreases |left|
    {
      var key :| key in left;
      OneAdded(work, found, db, left, key);
      left := left - {key};
      var row := db.pairs[key];
      if row.verdict != C.Candidate || key in work { continue; }
      if key.0 !in db.documents || key.1 !in db.documents { continue; }
      if db.documents[key.0] != row.hashA || db.documents[key.1] != row.hashB { continue; }
      work := work[key := C.Work(db.documents[key.0], db.documents[key.1], row.similarity)];
    }
    AllAdded(work, found, C.Retries(db));
  }

  lemma WorkIsOrdered(env: C.Env, db: C.Db)
    requires OrderedKeys(db.pairs)
    ensures OrderedKeys(C.WorkOf(env, db))
  {
    var order := C.ScanOrder(db)[..C.Visited(env, db)];
    ScanFacts(env, db, order);
    forall k | k in C.WorkOf(env, db)
      ensures Ordered(k)
    {
      if k in C.Scanned(env, db).work {
        var p :| p in order && NeedsPair(env, db, p, k);
        var q :| IsNeighbour(env, db.documents.Keys, p, q) && k == C.KeyOf(p, q);
        TextTotal(p, q);
      } else {
        assert k in db.pairs;
      }
    }
  }

  datatype Evaluated = Stored | JudgeFailed | Skipped

  /** Judge one pair and store its row, unless a document cannot be read. */
  method EvaluatePair(env: C.Env, db: StateDb, key: PairKey, item: C.Work, counters: Counters) returns (done: Evaluated)
    requires db.Valid() && Ordered(key)
    modifies db`pairs, counters
    ensures db.Valid()
    ensures match C.EvaluatePair(env, key, item)
      case Stored(row) =>
        && done == Stored && db.pairs == old(db.pairs)[key := row] && counters.errors == old(counters.errors)
        && counters.conflicts == old(counters.conflicts) + (if row.verdict == C.Conflict then 1 else 0)
        && counters.candidates == old(counters.candidates) + (if env.hasJudge then 0 else 1)
      case JudgeFailed(row) =>
        && done == JudgeFailed && db.pairs == old(db.pairs)[key := row] && counters.errors == old(counters.errors) + 1
        && counters.conflicts == old(counters.conflicts) && counters.candidates == old(counters.candidates)
      case Skipped(unreadable) =>
        && done == Skipped && db.pairs == old(db.pairs)
        && counters.errors == old(counters.errors) + (if unreadable then 1 else 0)
        && counters.conflicts == old(counters.conflicts) && counters.candidates == old(counters.candidates)
  {
    var row := C.Row(item.hashA, item.hashB, item.similarity, C.Candidate, false);
    var failed := false;
    if env.hasJudge {
      if env.read(key.0) != C.Text {
        if env.read(key.0) == C.Unreadable { counters.errors := counters.errors + 1; }
        return Skipped;
      }
      if env.read(key.1) != C.Text {
        if env.read(key.1) == C.Unreadable { counters.errors := counters.errors + 1; }
        return Skipped;
      }
      match env.judge(key) {
        case Verdict(conflict) =>
          if conflict {
            counters.conflicts := counters.conflicts + 1;
            row := row.(verdict := C.Conflict);
          } else {
            row := row.(verdict := C.NoConflict);
          }
        case CallFailed =>
          row := row.(error := true);
          counters.errors := counters.errors + 1;
          failed := true;
      }
    } else {
      counters.candidates := counters.candidates + 1;
    }
    TextTotal(key.0, key.1);
    db.Upsert(key.0, key.1, row);
    done := if failed then JudgeFailed else Stored;
  }

  /** Once stopped, the evaluation loop changes nothing. */
  lemma {:induction false} StoppedStays(
      env: C.Env, start: C.Eval, work: map<PairKey, C.Work>, keys: seq<PairKey>, i: nat)
    requires KeysIn(work, keys) && i <= |keys| && C.EvalRun(env, start, work, keys[..i]).stopped
    ensures C.EvalRun(env, start, work, keys) == C.EvalRun(env, start, work, keys[..i])
    decreases |keys|
  {
    if i < |keys| {
      assert keys[..|keys| - 1][..i] == keys[..i];
      StoppedStays(env, start, work, keys[..|keys| - 1], i);
    } else {
      assert keys[..i] == keys;
    }
  }

  lemma OneMore(env: C.Env, start: C.Eval, work: map<PairKey, C.Work>, keys: seq<PairKey>, i: nat)
    requires KeysIn(work, keys) && i < |keys|
    ensures C.EvalRun(env, start, work, keys[..i + 1])
            == C.EvalStep(env, C.EvalRun(env, start, work, keys[..i]), keys[i], work[keys[i]], i)
  {
    assert keys[..i + 1][..i] == keys[..i];
  }

  /** The loop's variables hold what the progress on values says. */
  ghost predicate Tracks(ev: C.Eval, pairs: map<PairKey, C.Row>, counters: Counters, settled: set<PairKey>,
                         attempted: nat, skipped: nat, failures: nat, cancelled: bool)
    reads counters
  {
    && ev.pairs == pairs && Elements(ev.evaluated) == settled && |ev.evaluated| == attempted
    && ev.skipped == skipped && ev.failures == failures && ev.cancelled == cancelled
    && ev.conflicts == counters.conflicts && ev.candidates == counters.candidates && ev.errors == counters.errors
  }

  /** Phase 3: evaluate in path order until the cap, cancellation, or too many failures in a row. */
  method EvaluateWork(
    env: C.Env, db: StateDb, work: map<PairKey, C.Work>, counters: Counters, scanCancelled: bool, ghost start: C.Eval)
    returns (settled: set<PairKey>, attempted: nat, skipped: nat, cancelled: bool)
    requires db.Valid() && OrderedKeys(work)
    requires !start.stopped && Tracks(start, db.pairs, counters, {}, 0, 0, 0, scanCancelled)
    modifies db`pairs, counters
    ensures db.Valid()
    ensures var ev := C.EvalRun(env, start, work, C.KeyOrder(work));
      Tracks(ev, db.pairs, counters, settled, attempted, skipped, ev.failures, cancelled)
  {
    hide C.EvalRun, C.EvaluatePair, C.KeyOrder, Elements;
    var keys := C.KeyOrder(work);
    var failures := 0;
    settled, attempted, skipped, cancelled := {}, 0, 0, scanCancelled;
    var i := 0;
    ghost var ev := start;
    NoneYet(env, start, work, keys);
    while i < |keys|
      invariant i <= |keys| && db.Valid() && ev == C.EvalRun(env, start, work, keys[..i]) && !ev.stopped
      invariant Tracks(ev, db.pairs, counters, settled, attempted, skipped, failures, cancelled)
      decreases |keys| - i
    {
      var key := keys[i];
      OneMore(env, start, work, keys, i);
      ghost var before := ev;
      ev := C.EvalStep(env, ev, key, work[key], i);
      if ev.stopped { StoppedStays(env, start, work, keys, i + 1); }
      if attempted >= env.params.maxPairs { break; }
      if env.cancelPair(i) {
        cancelled := true;
        break;
      }
      var outcome := EvaluatePair(env, db, key, work[key], counters);
      i := i + 1;
      if outcome.Skipped? {
        skipped := skipped + 1;
        continue;
      }
      attempted, settled := attempted + 1, settled + {key};
      ElementsSnoc(before.evaluated, key);
      if outcome.JudgeFailed? {
        failures := failures + 1;
        if failures >= C.MAX_CONSECUTIVE_JUDGE_FAILURES { break; }
      } else {
        failures := 0;
      }
    }
    if !ev.stopped { assert keys[..|keys|] == keys; }
  }

  lemma NoneYet(env: C.Env, start: C.Eval, work: map<PairKey, C.Work>, keys: seq<PairKey>)
    requires KeysIn(work, keys)
    ensures C.EvalRun(env, start, work, keys[..0]) == start
  {
  }

  lemma ElementsSnoc(s: seq<PairKey>, k: PairKey)
    ensures Elements(s + [k]) == Elements(s) + {k}
  {
  }

  // ---- the whole run ----

  /** Phases 1 and 2: everything that has to be evaluated. */
  method CollectWork(env: C.Env, db: C.Db)
    returns (work: map<PairKey, C.Work>, needs: seq<C.Need>, errors: nat, scanned: nat, cancelled: bool)
    ensures work == C.WorkOf(env, db) && needs == C.Scanned(env, db).needs && errors == C.Scanned(env, db).errors
    ensures scanned == |needs| && cancelled == (C.Visited(env, db) < |C.ScanOrder(db)|)
  {
    hide C.Scanned, C.ScanOrder, C.Retries;
    work, needs, errors, scanned, cancelled := ScanChanged(env, db);
    if env.hasJudge && !cancelled { work := AddRetries(db, work); }
    WorkIs(env, db, work);
  }

  /** Phase 4: mark the documents all of whose pairs settled, and drop their outdated rows. */
  method MarkAndDrop(env: C.Env, db: StateDb, needs: seq<C.Need>, settled: set<PairKey>, ghost start: C.Db)
    requires db.Valid() && db.View() == start.(pairs := C.Evaluated(env, start).pairs)
    requires needs == C.Scanned(env, start).needs && settled == Elements(C.Evaluated(env, start).evaluated)
    modifies db
    ensures db.Valid() && db.View() == C.DbAfter(env, start)
  {
    hide C.Scanned, C.Evaluated, C.DropStale, C.Mark, C.DoneOf;
    var done := C.DoneOf(needs, settled);
    C.DoneKnown(env, start);
    db.MarkAnalyzed(done);
    db.DeleteStale(done);
  }

  /** One pass over the stored state. */
  method RunOnce(env: C.Env, db: StateDb) returns (summary: C.Summary)
    requires db.Valid()
    modifies db
    ensures db.Valid()
    ensures db.View() == C.Run(env, old(db.View())).db && summary == C.Run(env, old(db.View())).summary
  {
    hide C.Scanned, C.EvalRun, C.WorkOf, C.KeyOrder, C.Prune, C.Deferred, C.ScanOrder, C.Visited, C.DbAfter,
         OrderedKeys;
    db.Prune();
    var start := db.View();
    var counters := new Counters();

    var work, needs, errors, scanned, cancelled := CollectWork(env, start);
    counters.errors := errors;

    WorkIsOrdered(env, start);
    var settled, attempted, skipped;
    settled, attempted, skipped, cancelled := EvaluateWork(env, db, work, counters, cancelled, C.StartOf(env, start));
    SettledCount(env, start);
    var deferred := |work| - |settled| - skipped;

    MarkAndDrop(env, db, needs, settled, start);
    summary := C.Summary(
      scanned, attempted, counters.conflicts, counters.candidates, counters.errors, deferred, cancelled);
  }

  lemma WorkIs(env: C.Env, db: C.Db, work: map<PairKey, C.Work>)
    requires work == if env.hasJudge && C.Visited(env, db) == |C.ScanOrder(db)|
                     then C.Retries(db) + C.Scanned(env, db).work else C.Scanned(env, db).work
    ensures work == C.WorkOf(env, db)
  {
  }

  /** Every evaluated pair is evaluated once, so the set of settled pairs has as many members. */
  lemma {:induction false} SettledCount(env: C.Env, db: C.Db)
    ensures |Elements(C.Evaluated(env, db).evaluated)| == |C.Evaluated(env, db).evaluated|
    ensures C.Deferred(env, db)
            == |C.WorkOf(env, db)| - |C.Evaluated(env, db).evaluated| - C.Evaluated(env, db).skipped
  {
    EvaluatedDistinct(env, db);
  }
}
