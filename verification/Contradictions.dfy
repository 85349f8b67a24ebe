/** One contradiction-detection run (src/contradictions.rs) over the stored state (src/state.rs),
    said on values: what is scanned, which pairs are evaluated, what is marked and dropped. */
module Contradictions {
  import opened Options
  import opened Ordering

  type Path = string
  type Hash = string
  type PairKey = (Path, Path)

  datatype Verdict = Conflict | NoConflict | Candidate

  /** A stored pair; `error` says the row is a candidate because its judge call failed. */
  datatype Row = Row(hashA: Hash, hashB: Hash, similarity: real, verdict: Verdict, error: bool)

  /** Current content hash of every document, hash each was last analysed at, stored pairs. */
  datatype Db = Db(documents: map<Path, Hash>, analyzed: map<Path, Hash>, pairs: map<PairKey, Row>)

  datatype Work = Work(hashA: Hash, hashB: Hash, similarity: real)

  datatype Params = Params(topK: nat, minSimilarity: real, maxPairs: nat)

  datatype Hit = Hit(file: Option<Path>, score: real)

  datatype Judged = Verdict(conflict: bool) | CallFailed

  datatype Read = Text | Missing | Unreadable

  /** Everything a run meets outside the database: the neighbour store, the judge (if any),
      the files, and when cancellation is seen. */
  datatype Env = Env(
    neighbours: Path -> Option<seq<Hit>>, hasJudge: bool, judge: PairKey -> Judged, read: Path -> Read,
    cancelScan: nat -> bool, cancelPair: nat -> bool, params: Params)

  datatype Summary = Summary(
    documentsScanned: nat, pairsEvaluated: nat, conflicts: nat, candidates: nat, errors: nat,
    deferredPairs: nat, cancelled: bool)

  const MAX_CONSECUTIVE_JUDGE_FAILURES := 5

  function KeyOf(x: Path, y: Path): PairKey { if TextLe(x, y) then (x, y) else (y, x) }

  // ---- database operations ----

  /** Drop what mentions a removed document; does nothing while there are no documents. */
  function Prune(db: Db): Db {
    if db.documents == map[] then db else
    Db(db.documents,
       map p | p in db.analyzed && p in db.documents :: db.analyzed[p],
       map k | k in db.pairs && k.0 in db.documents && k.1 in db.documents :: db.pairs[k])
  }

  /** Record documents as analysed at their current hash. */
  function Mark(db: Db, done: seq<Path>): Db
    requires forall p :: p in done ==> p in db.documents
  {
    db.(analyzed := db.analyzed + map p | p in done :: db.documents[p])
  }

  /** A row whose hash for `p` is not `p`'s current one. */
  predicate StaleFor(k: PairKey, r: Row, p: Path, hash: Hash) {
    (k.0 == p && r.hashA != hash) || (k.1 == p && r.hashB != hash)
  }

  function Other(k: PairKey, p: Path): Path { if k.0 == p then k.1 else k.0 }

  /** Drop `p`'s stale rows; the other document of each loses its analysed mark. */
  function DropStaleOf(db: Db, p: Path): Db
    requires p in db.documents
  {
    var stale := set k | k in db.pairs && StaleFor(k, db.pairs[k], p, db.documents[p]);
    var partners := set k | k in stale :: Other(k, p);
    db.(analyzed := db.analyzed - partners, pairs := db.pairs - stale)
  }

  function DropStale(db: Db, done: seq<Path>): (r: Db)
    requires forall p :: p in done ==> p in db.documents
    ensures r.documents == db.documents
  {
    if done == [] then db else DropStaleOf(DropStale(db, done[..|done| - 1]), done[|done| - 1])
  }

  // ---- deciding what is settled ----

  function Lookup<K(==), V>(m: map<K, V>, k: K): Option<V> { if k in m then Some(m[k]) else None }

  /** Whether a stored row already settles a pair at these hashes. */
  predicate IsSettled(stored: Option<Row>, hashA: Hash, hashB: Hash, judge: bool) {
    match stored
    case None => false
    case Some(row) => row.hashA == hashA && row.hashB == hashB && (row.verdict == Candidate ==> !judge)
  }

  predicate PairSettled(db: Db, k: PairKey, judge: bool)
    requires k.0 in db.documents && k.1 in db.documents
  {
    IsSettled(Lookup(db.pairs, k), db.documents[k.0], db.documents[k.1], judge)
  }

  /** Documents whose content is not what was last analysed. */
  function Changed(db: Db): set<Path> {
    set p | p in db.documents && Lookup(db.analyzed, p) != Some(db.documents[p])
  }

  // ---- neighbours ----

  type Scored = (Path, real)

  /** Best score per known other document at or above the floor. */
  function BestScores(hits: seq<Hit>, path: Path, known: set<Path>, floor: real): map<Path, real> {
    if hits == [] then map[] else
    var best := BestScores(hits[..|hits| - 1], path, known, floor);
    var hit := hits[|hits| - 1];
    if hit.file.None? || hit.file.value == path || hit.score < floor || hit.file.value !in known then best
    else
      var f := hit.file.value;
      best[f := if f in best && best[f] >= hit.score then best[f] else hit.score]
  }

  predicate RankLe(x: Scored, y: Scored) {
    x.1 > y.1 || (x.1 == y.1 && TextLe(x.0, y.0))
  }

  lemma RankOrder()
    ensures TotalOrder(RankLe)
  {
    forall x: Scored, y: Scored
      ensures Total(RankLe, x, y) && Antisymmetric(RankLe, x, y)
    {
      TextTotal(x.0, y.0);
    }
    forall x: Scored, y: Scored, z: Scored
      ensures Transitive(RankLe, x, y, z)
    {
      if RankLe(x, y) && RankLe(y, z) && x.1 == z.1 { TextTransitive(x.0, y.0, z.0); }
    }
  }

  /** The neighbour list a run works with for a document. */
  function Neighbours(env: Env, known: set<Path>, path: Path, hits: seq<Hit>): seq<Scored> {
    TopK(hits, path, known, env.params.topK, env.params.minSimilarity)
  }

  function Truncate<T>(s: seq<T>, n: nat): seq<T> { if |s| > n then s[..n] else s }

  /** The `topK` best neighbours, best score first, then by path. */
  function TopK(hits: seq<Hit>, path: Path, known: set<Path>, topK: nat, floor: real): seq<Scored> {
    var best := BestScores(hits, path, known, floor);
    RankOrder();
    Truncate(Sorted(set p | p in best :: (p, best[p]), RankLe), topK)
  }

  // ---- phase 1: what changed documents need ----

  datatype Acc = Acc(work: map<PairKey, Work>, required: seq<PairKey>)

  function MaxScore(a: real, b: real): real { if a < b then b else a }

  function NeedStep(db: Db, judge: bool, path: Path, acc: Acc, s: Scored): Acc
    requires path in db.documents && s.0 in db.documents
  {
    var key := KeyOf(path, s.0);
    if PairSettled(db, key, judge) then acc else
    var w := if key in acc.work then acc.work[key]
             else Work(db.documents[key.0], db.documents[key.1], s.1);
    Acc(acc.work[key := w.(similarity := MaxScore(w.similarity, s.1))], acc.required + [key])
  }

  function NeedRun(db: Db, judge: bool, path: Path, work: map<PairKey, Work>, ranked: seq<Scored>): Acc
    requires path in db.documents && forall i :: 0 <= i < |ranked| ==> ranked[i].0 in db.documents
  {
    if ranked == [] then Acc(work, []) else
    NeedStep(db, judge, path, NeedRun(db, judge, path, work, ranked[..|ranked| - 1]), ranked[|ranked| - 1])
  }

  /** A scanned document and the pairs that must all settle before it counts as analysed. */
  datatype Need = Need(path: Path, required: seq<PairKey>)

  datatype Scan = Scan(work: map<PairKey, Work>, needs: seq<Need>, errors: nat)

  lemma TopKKnown(hits: seq<Hit>, path: Path, known: set<Path>, topK: nat, floor: real)
    ensures var r := TopK(hits, path, known, topK, floor);
      forall i :: 0 <= i < |r| ==> r[i].0 in known && r[i].0 != path
  {
    BestKnown(hits, path, known, floor);
    var best := BestScores(hits, path, known, floor);
    RankOrder();
    var all := set p | p in best :: (p, best[p]);
    var r := TopK(hits, path, known, topK, floor);
    forall i | 0 <= i < |r|
      ensures r[i].0 in known && r[i].0 != path
    {
      SortedElements(all, RankLe);
      assert Sorted(all, RankLe)[i] in all;
    }
  }

  lemma {:induction false} BestKnown(hits: seq<Hit>, path: Path, known: set<Path>, floor: real)
    ensures forall p :: p in BestScores(hits, path, known, floor) ==> p in known && p != path
  {
    if hits != [] { BestKnown(hits[..|hits| - 1], path, known, floor); }
  }

  function ScanDoc(env: Env, db: Db, sc: Scan, path: Path): Scan
    requires path in db.documents
  {
    match env.neighbours(path)
    case None => sc.(errors := sc.errors + 1)
    case Some(hits) =>
      TopKKnown(hits, path, db.documents.Keys, env.params.topK, env.params.minSimilarity);
      var acc := NeedRun(db, env.hasJudge, path, sc.work, Neighbours(env, db.documents.Keys, path, hits));
      Scan(acc.work, sc.needs + [Need(path, acc.required)], sc.errors)
  }

  function ScanRun(env: Env, db: Db, order: seq<Path>): Scan
    requires forall i :: 0 <= i < |order| ==> order[i] in db.documents
  {
    if order == [] then Scan(map[], [], 0) else
    ScanDoc(env, db, ScanRun(env, db, order[..|order| - 1]), order[|order| - 1])
  }

  /** How far a loop of `n` rounds gets before cancellation is seen. */
  function RoundsBefore(cancel: nat -> bool, n: nat, i: nat): (r: nat)
    requires i <= n
    ensures i <= r <= n
    decreases n - i
  {
    if i == n || cancel(i) then i else RoundsBefore(cancel, n, i + 1)
  }

  function ScanOrder(db: Db): (r: seq<Path>)
    ensures forall i :: 0 <= i < |r| ==> r[i] in db.documents
  {
    TextOrder();
    SortedElements(Changed(db), TextLe);
    Sorted(Changed(db), TextLe)
  }

  lemma ScanOrderIsChanged(db: Db)
    ensures forall p :: p in ScanOrder(db) <==> p in Changed(db)
  {
    TextOrder();
    SortedElements(Changed(db), TextLe);
  }

  function Visited(env: Env, db: Db): nat { RoundsBefore(env.cancelScan, |ScanOrder(db)|, 0) }

  function Scanned(env: Env, db: Db): Scan {
    ScanRun(env, db, ScanOrder(db)[..Visited(env, db)])
  }

  // ---- phase 2: candidates retried once there is a judge ----

  predicate Retried(db: Db, k: PairKey)
    requires k in db.pairs
  {
    var row := db.pairs[k];
    && row.verdict == Candidate && k.0 in db.documents && k.1 in db.documents
    && db.documents[k.0] == row.hashA && db.documents[k.1] == row.hashB
  }

  function Retries(db: Db): map<PairKey, Work> {
    map k | k in db.pairs && Retried(db, k) ::
      Work(db.documents[k.0], db.documents[k.1], db.pairs[k].similarity)
  }

  /** Everything to be evaluated, by key. */
  function WorkOf(env: Env, db: Db): map<PairKey, Work> {
    var work := Scanned(env, db).work;
    if env.hasJudge && Visited(env, db) == |ScanOrder(db)| then Retries(db) + work else work
  }

  // ---- phase 3: evaluate in path order up to the cap ----

  datatype Outcome = Stored(row: Row) | JudgeFailed(row: Row) | Skipped(unreadable: bool)

  function EvaluatePair(env: Env, k: PairKey, w: Work): Outcome {
    var candidate := Row(w.hashA, w.hashB, w.similarity, Candidate, false);
    if !env.hasJudge then Stored(candidate)
    else if env.read(k.0) != Text then Skipped(env.read(k.0) == Unreadable)
    else if env.read(k.1) != Text then Skipped(env.read(k.1) == Unreadable)
    else match env.judge(k)
      case Verdict(conflict) => Stored(candidate.(verdict := if conflict then Conflict else NoConflict))
      case CallFailed => JudgeFailed(candidate.(error := true))
  }

  /** Progress of the evaluation loop; `evaluated` lists the pairs a row was written for. */
  datatype Eval = Eval(
    pairs: map<PairKey, Row>, evaluated: seq<PairKey>, skipped: nat, failures: nat,
    conflicts: nat, candidates: nat, errors: nat, cancelled: bool, stopped: bool)

  function EvalStep(env: Env, ev: Eval, k: PairKey, w: Work, round: nat): Eval {
    if ev.stopped then ev
    else if |ev.evaluated| >= env.params.maxPairs then ev.(stopped := true)
    else if env.cancelPair(round) then ev.(cancelled := true, stopped := true)
    else match EvaluatePair(env, k, w)
      case Stored(row) =>
        ev.(pairs := ev.pairs[k := row], evaluated := ev.evaluated + [k], failures := 0,
            conflicts := ev.conflicts + (if row.verdict == Conflict then 1 else 0),
            candidates := ev.candidates + (if env.hasJudge then 0 else 1))
      case JudgeFailed(row) =>
        ev.(pairs := ev.pairs[k := row], evaluated := ev.evaluated + [k], failures := ev.failures + 1,
            errors := ev.errors + 1, stopped := ev.failures + 1 >= MAX_CONSECUTIVE_JUDGE_FAILURES)
      case Skipped(unreadable) =>
        ev.(skipped := ev.skipped + 1, errors := ev.errors + (if unreadable then 1 else 0))
  }

  function EvalRun(env: Env, start: Eval, work: map<PairKey, Work>, keys: seq<PairKey>): Eval
    requires forall i :: 0 <= i < |keys| ==> keys[i] in work
    decreases |keys|, 0
  {
    if keys == [] then start else EvalLast(env, start, work, keys)
  }

  /** The round of the last key, after those before it. */
  function EvalLast(env: Env, start: Eval, work: map<PairKey, Work>, keys: seq<PairKey>): Eval
    requires keys != [] && forall i :: 0 <= i < |keys| ==> keys[i] in work
    decreases |keys| - 1, 1
  {
    var n := |keys| - 1;
    EvalStep(env, EvalRun(env, start, work, keys[..n]), keys[n], work[keys[n]], n)
  }

  function KeyOrder(work: map<PairKey, Work>): (r: seq<PairKey>)
    ensures forall i :: 0 <= i < |r| ==> r[i] in work
  {
    PairOrder();
    SortedElements(work.Keys, PairLe);
    Sorted(work.Keys, PairLe)
  }

  lemma KeyOrderCount(work: map<PairKey, Work>)
    ensures |KeyOrder(work)| == |work|
  {
    PairOrder();
    SortedCount(work.Keys, PairLe);
    assert |work.Keys| == |work|;
  }

  function StartOf(env: Env, db: Db): Eval {
    Eval(db.pairs, [], 0, 0, 0, 0, Scanned(env, db).errors, Visited(env, db) < |ScanOrder(db)|, false)
  }

  function Evaluated(env: Env, db: Db): Eval {
    EvalRun(env, StartOf(env, db), WorkOf(env, db), KeyOrder(WorkOf(env, db)))
  }

  // ---- phase 4: mark, drop, report ----

  /** The scanned documents whose every needed pair settled, in scan order. */
  function DoneOf(needs: seq<Need>, settled: set<PairKey>): seq<Path> {
    if needs == [] then [] else
    var n := needs[|needs| - 1];
    DoneOf(needs[..|needs| - 1], settled)
    + (if forall i :: 0 <= i < |n.required| ==> n.required[i] in settled then [n.path] else [])
  }

  function Done(env: Env, db: Db): seq<Path> {
    DoneOf(Scanned(env, db).needs, Elements(Evaluated(env, db).evaluated))
  }

  lemma {:induction false} NeedsKnown(env: Env, db: Db, order: seq<Path>)
    requires forall i :: 0 <= i < |order| ==> order[i] in db.documents
    ensures forall i :: 0 <= i < |ScanRun(env, db, order).needs| ==> ScanRun(env, db, order).needs[i].path in order
  {
    if order != [] {
      var n := |order| - 1;
      NeedsKnown(env, db, order[..n]);
      assert order[n] in order;
    }
  }

  lemma {:induction false} DoneIsNeeded(needs: seq<Need>, settled: set<PairKey>, p: Path)
    ensures p in DoneOf(needs, settled) <==>
            exists i :: 0 <= i < |needs| && needs[i].path == p
                        && forall j :: 0 <= j < |needs[i].required| ==> needs[i].required[j] in settled
  {
    if needs != [] {
      var n := |needs| - 1;
      DoneIsNeeded(needs[..n], settled, p);
      if exists i :: 0 <= i < n && needs[i].path == p
                     && forall j :: 0 <= j < |needs[i].required| ==> needs[i].required[j] in settled {
        var i :| 0 <= i < n && needs[i].path == p
                 && forall j :: 0 <= j < |needs[i].required| ==> needs[i].required[j] in settled;
        assert needs[..n][i] == needs[i];
      }
    }
  }

  lemma DoneKnown(env: Env, db: Db)
    ensures forall p :: p in Done(env, db) ==> p in db.documents && p in Changed(db)
  {
    var order := ScanOrder(db);
    ScanOrderIsChanged(db);
    NeedsKnown(env, db, order[..Visited(env, db)]);
    forall p | p in Done(env, db)
      ensures p in db.documents && p in Changed(db)
    {
      DoneIsNeeded(Scanned(env, db).needs, Elements(Evaluated(env, db).evaluated), p);
      assert p in order;
    }
  }

  /** The database after the run, and what the run reports. */
  datatype RunResult = RunResult(db: Db, summary: Summary)

  /** The database once all rows are written and the finished documents marked. */
  function Marked(env: Env, db: Db): (r: Db)
    ensures r.documents == db.documents
  {
    DoneKnown(env, db);
    Mark(db.(pairs := Evaluated(env, db).pairs), Done(env, db))
  }

  function DbAfter(env: Env, db: Db): Db {
    DoneKnown(env, db);
    DropStale(Marked(env, db), Done(env, db))
  }

  function SummaryOf(env: Env, db: Db): Summary {
    var ev := Evaluated(env, db);
    Summary(|Scanned(env, db).needs|, |ev.evaluated|, ev.conflicts, ev.candidates, ev.errors,
            Deferred(env, db), ev.cancelled)
  }

  /** A run handles each pair of its work at most once. */
  lemma {:induction false} EvalCounts(env: Env, start: Eval, work: map<PairKey, Work>, keys: seq<PairKey>)
    requires forall i :: 0 <= i < |keys| ==> keys[i] in work
    ensures var ev := EvalRun(env, start, work, keys);
      |ev.evaluated| + ev.skipped <= |start.evaluated| + start.skipped + |keys|
  {
    if keys != [] { EvalCounts(env, start, work, keys[..|keys| - 1]); }
  }

  /** Pairs found but left for the next run; the subtraction cannot go below zero. */
  function Deferred(env: Env, db: Db): (left: nat)
    ensures |Evaluated(env, db).evaluated| + Evaluated(env, db).skipped + left == |WorkOf(env, db)|
  {
    EvalCounts(env, StartOf(env, db), WorkOf(env, db), KeyOrder(WorkOf(env, db)));
    KeyOrderCount(WorkOf(env, db));
    |WorkOf(env, db)| - |Evaluated(env, db).evaluated| - Evaluated(env, db).skipped
  }

  function Run(env: Env, db: Db): RunResult {
    RunResult(DbAfter(env, Prune(db)), SummaryOf(env, Prune(db)))
  }
}
