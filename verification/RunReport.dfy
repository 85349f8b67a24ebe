/** What one contradiction run writes and reports (src/contradictions.rs): which pairs it gets to,
    what their rows say, and what the counters of its summary count. */
module RunReport {
  import opened Ordering
  import opened Contradictions
  import opened RunLaws

  // ---- one pair ----

  /** Nothing has to be read, or both files can be. */
  predicate CanJudge(env: Env, k: PairKey) { env.hasJudge ==> env.read(k.0) == Text && env.read(k.1) == Text }

  predicate IsConflict(env: Env, k: PairKey) { env.hasJudge && env.judge(k) == Verdict(true) }

  predicate CallFails(env: Env, k: PairKey) { env.hasJudge && env.judge(k).CallFailed? }

  /** The first file that cannot be had is there, but cannot be read. */
  predicate ReadFails(env: Env, k: PairKey) {
    env.hasJudge && (env.read(k.0) == Unreadable || (env.read(k.0) == Text && env.read(k.1) == Unreadable))
  }

  function Conflicts(env: Env): PairKey -> bool { (k: PairKey) => IsConflict(env, k) }

  function FailedCalls(env: Env): PairKey -> bool { (k: PairKey) => CallFails(env, k) }

  function FailedReads(env: Env): PairKey -> bool { (k: PairKey) => ReadFails(env, k) }

  function FailedLookups(env: Env): Path -> bool { (p: Path) => env.neighbours(p).None? }

  /** The row repeats the work item and says what the judge answered: a candidate without a judge, or,
      marked as an error, after a failed call. */
  ghost predicate Says(env: Env, k: PairKey, w: Work, row: Row) {
    && row.hashA == w.hashA && row.hashB == w.hashB && row.similarity == w.similarity
    && (row.verdict == Conflict <==> env.hasJudge && env.judge(k) == Verdict(true))
    && (row.verdict == NoConflict <==> env.hasJudge && env.judge(k) == Verdict(false))
    && (row.error <==> env.hasJudge && env.judge(k).CallFailed?)
  }

  lemma OutcomeSays(env: Env, k: PairKey, w: Work)
    ensures match EvaluatePair(env, k, w)
      case Stored(row) => CanJudge(env, k) && !CallFails(env, k) && Says(env, k, w, row)
      case JudgeFailed(row) => CanJudge(env, k) && CallFails(env, k) && Says(env, k, w, row)
      case Skipped(unreadable) => !CanJudge(env, k) && (unreadable <==> ReadFails(env, k))
  {
  }

  // ---- which pairs the loop gets to ----

  /** The keys the judge can be asked about, in order. */
  function Judgeable(env: Env, keys: seq<PairKey>): seq<PairKey> {
    if keys == [] then [] else
    Judgeable(env, keys[..|keys| - 1]) + if CanJudge(env, keys[|keys| - 1]) then [keys[|keys| - 1]] else []
  }

  function Count<T>(p: T -> bool, s: seq<T>): nat {
    if s == [] then 0 else Count(p, s[..|s| - 1]) + if p(s[|s| - 1]) then 1 else 0
  }

  lemma CountSnoc<T>(p: T -> bool, s: seq<T>, x: T)
    ensures Count(p, s + [x]) == Count(p, s) + if p(x) then 1 else 0
    ensures Count(p, []) == 0
  {
    assert (s + [x])[..|s|] == s;
  }

  /** The last calls, as many as the run tolerates, all failed. */
  ghost predicate Streak(env: Env, judged: seq<PairKey>) {
    && |judged| >= MAX_CONSECUTIVE_JUDGE_FAILURES
    && forall i :: |judged| - MAX_CONSECUTIVE_JUDGE_FAILURES <= i < |judged| ==> CallFails(env, judged[i])
  }

  ghost predicate Full(env: Env, judged: seq<PairKey>) { |judged| >= env.params.maxPairs }

  /** Before key `n` the loop ends: the cap is reached, too many calls in a row failed, or
      cancellation is seen. */
  ghost predicate Halts(env: Env, keys: seq<PairKey>, n: nat)
    requires n <= |keys|
  {
    var judged := Judgeable(env, keys[..n]);
    Full(env, judged) || Streak(env, judged) || env.cancelPair(n)
  }

  /** The loop gets through the first `n` keys and no further. */
  ghost predicate StopsAt(env: Env, keys: seq<PairKey>, n: nat) {
    && n <= |keys| && (n < |keys| ==> Halts(env, keys, n))
    && forall m: nat :: m < n ==> !Halts(env, keys, m)
  }

  /** How many of the last calls failed in a row. */
  function FailedInRow(env: Env, judged: seq<PairKey>): nat {
    if judged == [] || !CallFails(env, judged[|judged| - 1]) then 0
    else FailedInRow(env, judged[..|judged| - 1]) + 1
  }

  lemma {:induction false} FailedInRowIs(env: Env, judged: seq<PairKey>, m: nat)
    ensures FailedInRow(env, judged) >= m
            <==> |judged| >= m && forall i :: |judged| - m <= i < |judged| ==> CallFails(env, judged[i])
  {
    if judged != [] && m > 0 { FailedInRowIs(env, judged[..|judged| - 1], m - 1); }
  }

  lemma StreakIs(env: Env, judged: seq<PairKey>)
    ensures Streak(env, judged) <==> FailedInRow(env, judged) >= MAX_CONSECUTIVE_JUDGE_FAILURES
  {
    FailedInRowIs(env, judged, MAX_CONSECUTIVE_JUDGE_FAILURES);
  }

  lemma JudgeableSnoc(env: Env, keys: seq<PairKey>, k: PairKey)
    ensures Judgeable(env, keys + [k]) == Judgeable(env, keys) + if CanJudge(env, k) then [k] else []
    ensures FailedInRow(env, Judgeable(env, keys) + [k])
            == if CallFails(env, k) then FailedInRow(env, Judgeable(env, keys)) + 1 else 0
  {
    assert (keys + [k])[..|keys|] == keys;
    assert (Judgeable(env, keys) + [k])[..|Judgeable(env, keys)|] == Judgeable(env, keys);
  }

  /** The loop's counters after the first `n` keys. */
  ghost predicate Tallies(env: Env, start: Eval, ev: Eval, done: seq<PairKey>) {
    var judged := Judgeable(env, done);
    && ev.evaluated == judged && ev.skipped == |done| - |judged|
    && ev.conflicts == Count(Conflicts(env), judged)
    && ev.candidates == (if env.hasJudge then 0 else |judged|)
    && ev.errors == start.errors + Count(FailedCalls(env), judged) + Count(FailedReads(env), done)
    && ev.failures == FailedInRow(env, judged)
  }

  ghost predicate AtStart(start: Eval) {
    && start.evaluated == [] && start.skipped == 0 && start.failures == 0 && start.conflicts == 0
    && start.candidates == 0 && !start.stopped
  }

  lemma StartTallies(env: Env, start: Eval)
    requires AtStart(start)
    ensures Tallies(env, start, start, [])
  {
  }

  /** One more key, when the loop gets to it. */
  lemma OneMore(env: Env, start: Eval, ev: Eval, done: seq<PairKey>, k: PairKey, w: Work)
    requires Tallies(env, start, ev, done) && !ev.stopped
    requires |ev.evaluated| < env.params.maxPairs && !env.cancelPair(|done|)
    ensures var ev' := EvalStep(env, ev, k, w, |done|);
      && Tallies(env, start, ev', done + [k]) && ev'.cancelled == ev.cancelled
      && (ev'.stopped <==> CanJudge(env, k) && CallFails(env, k) && Streak(env, Judgeable(env, done + [k])))
  {
    hide CallFails, CanJudge, ReadFails, IsConflict, EvaluatePair, Says, Count, Judgeable, FailedInRow, Streak;
    OutcomeSays(env, k, w);
    OutcomeCounts(env, k, w);
    JudgeableSnoc(env, done, k);
    CountSnoc(Conflicts(env), Judgeable(env, done), k);
    CountSnoc(FailedCalls(env), Judgeable(env, done), k);
    CountSnoc(FailedReads(env), done, k);
    StreakIs(env, Judgeable(env, done + [k]));
  }

  lemma OutcomeCounts(env: Env, k: PairKey, w: Work)
    ensures CanJudge(env, k) ==> !ReadFails(env, k)
    ensures var out := EvaluatePair(env, k, w);
      && (out.Stored? ==> (out.row.verdict == Conflict <==> IsConflict(env, k)))
      && (out.JudgeFailed? ==> !IsConflict(env, k))
  {
  }

  /** What holds after the rounds of some keys: they were all handled, or the loop ended at `n`. */
  ghost predicate After(env: Env, start: Eval, ev: Eval, keys: seq<PairKey>, n: nat) {
    && n <= |keys| && (forall m: nat :: m < n ==> !Halts(env, keys, m))
    && Tallies(env, start, ev, keys[..n])
    && (if ev.stopped then Halts(env, keys, n) && (n == |keys| ==> Streak(env, Judgeable(env, keys[..n])))
        else n == |keys| && !Streak(env, Judgeable(env, keys[..n])))
    && (ev.cancelled <==> start.cancelled || (ev.stopped && SawCancel(env, keys, n)))
  }

  /** The loop ends at `n` because it sees cancellation there. */
  ghost predicate SawCancel(env: Env, keys: seq<PairKey>, n: nat)
    requires n <= |keys|
  {
    var judged := Judgeable(env, keys[..n]);
    n < |keys| && !Full(env, judged) && !Streak(env, judged) && env.cancelPair(n)
  }

  lemma HaltsBefore(env: Env, keys: seq<PairKey>, k: PairKey, m: nat)
    requires m <= |keys|
    ensures Halts(env, keys + [k], m) <==> Halts(env, keys, m)
    ensures (keys + [k])[..m] == keys[..m]
  {
    assert (keys + [k])[..m] == keys[..m];
  }

  lemma EvalSnoc(env: Env, start: Eval, work: map<PairKey, Work>, keys: seq<PairKey>, k: PairKey)
    requires KeysIn(work, keys) && k in work
    ensures KeysIn(work, keys + [k])
    ensures EvalRun(env, start, work, keys + [k]) == EvalStep(env, EvalRun(env, start, work, keys), k, work[k], |keys|)
  {
    assert (keys + [k])[..|keys|] == keys;
  }

  lemma AfterStop(env: Env, start: Eval, ev: Eval, keys: seq<PairKey>, n: nat, k: PairKey, w: Work)
    requires After(env, start, ev, keys, n) && ev.stopped
    ensures After(env, start, EvalStep(env, ev, k, w, |keys|), keys + [k], n)
  {
    hide Halts, Streak, Full, Tallies;
    forall m: nat | m <= n
      ensures Halts(env, keys + [k], m) <==> Halts(env, keys, m)
    {
      HaltsBefore(env, keys, k, m);
    }
    HaltsBefore(env, keys, k, n);
  }

  lemma AfterRound(env: Env, start: Eval, ev: Eval, keys: seq<PairKey>, k: PairKey, w: Work) returns (n: nat)
    requires After(env, start, ev, keys, |keys|) && !ev.stopped
    ensures After(env, start, EvalStep(env, ev, k, w, |keys|), keys + [k], n)
  {
    hide Halts, Tallies;
    var judged := Judgeable(env, keys);
    assert keys[..|keys|] == keys && (keys + [k])[..|keys| + 1] == keys + [k];
    forall m: nat | m <= |keys|
      ensures Halts(env, keys + [k], m) <==> Halts(env, keys, m)
    {
      HaltsBefore(env, keys, k, m);
    }
    HaltsBefore(env, keys, k, |keys|);
    RoundStarts(env, start, ev, keys);
    if Full(env, judged) || env.cancelPair(|keys|) {
      n := |keys|;
      RoundHalts(env, start, ev, keys, k, w);
    } else {
      n := |keys| + 1;
      OneMore(env, start, ev, keys, k, w);
      RoundDone(env, start, ev, keys, k, w);
    }
  }

  lemma RoundStarts(env: Env, start: Eval, ev: Eval, keys: seq<PairKey>)
    requires Tallies(env, start, ev, keys) && !Streak(env, Judgeable(env, keys))
    ensures Halts(env, keys, |keys|) <==> Full(env, Judgeable(env, keys)) || env.cancelPair(|keys|)
    ensures |ev.evaluated| == |Judgeable(env, keys)|
  {
    assert keys[..|keys|] == keys;
  }

  lemma RoundHalts(env: Env, start: Eval, ev: Eval, keys: seq<PairKey>, k: PairKey, w: Work)
    requires Tallies(env, start, ev, keys) && !ev.stopped
    requires Full(env, Judgeable(env, keys)) || env.cancelPair(|keys|)
    ensures var ev' := EvalStep(env, ev, k, w, |keys|);
      && Tallies(env, start, ev', keys) && ev'.stopped
      && (ev'.cancelled <==> ev.cancelled || (!Full(env, Judgeable(env, keys)) && env.cancelPair(|keys|)))
  {
  }

  lemma RoundDone(env: Env, start: Eval, ev: Eval, keys: seq<PairKey>, k: PairKey, w: Work)
    requires Tallies(env, start, EvalStep(env, ev, k, w, |keys|), keys + [k])
    requires !Streak(env, Judgeable(env, keys))
    ensures var next := keys + [k];
      && (Streak(env, Judgeable(env, next)) ==> Halts(env, next, |next|))
      && (Streak(env, Judgeable(env, next)) ==> CanJudge(env, k) && CallFails(env, k))
  {
    hide CanJudge, CallFails;
    JudgeableSnoc(env, keys, k);
    StreakIs(env, Judgeable(env, keys));
    StreakIs(env, Judgeable(env, keys + [k]));
    assert (keys + [k])[..|keys + [k]|] == keys + [k];
    assert Judgeable(env, keys) + [] == Judgeable(env, keys);
  }

  lemma {:induction false} EvalIs(env: Env, start: Eval, work: map<PairKey, Work>, keys: seq<PairKey>) returns (n: nat)
    requires AtStart(start) && KeysIn(work, keys)
    ensures After(env, start, EvalRun(env, start, work, keys), keys, n)
  {
    hide After;
    if keys == [] {
      n := 0;
      StartsAfter(env, start, work);
    } else {
      var front, last := keys[..|keys| - 1], keys[|keys| - 1];
      assert keys == front + [last];
      n := EvalIs(env, start, work, front);
      EvalSnoc(env, start, work, front, last);
      var ev := EvalRun(env, start, work, front);
      if ev.stopped {
        AfterStop(env, start, ev, front, n, last, work[last]);
      } else {
        StillGoing(env, start, ev, front, n);
        n := AfterRound(env, start, ev, front, last, work[last]);
      }
    }
  }

  lemma StillGoing(env: Env, start: Eval, ev: Eval, keys: seq<PairKey>, n: nat)
    requires After(env, start, ev, keys, n) && !ev.stopped
    ensures n == |keys|
  {
  }

  lemma StartsAfter(env: Env, start: Eval, work: map<PairKey, Work>)
    requires AtStart(start)
    ensures After(env, start, EvalRun(env, start, work, []), [], 0)
  {
    StartTallies(env, start);
    var none: seq<PairKey> := [];
    assert none[..0] == none;
  }

  // ---- the scan ----

  /** Documents are scanned in path order until cancellation is seen. */
  lemma {:induction false} ScanStops(cancel: nat -> bool, n: nat, i: nat)
    requires i <= n
    ensures var v := RoundsBefore(cancel, n, i);
      && i <= v <= n && (v < n ==> cancel(v)) && forall m: nat :: i <= m < v ==> !cancel(m)
    decreases n - i
  {
    if i < n && !cancel(i) { ScanStops(cancel, n, i + 1); }
  }

  lemma {:induction false} ScanCounts(env: Env, db: Db, order: seq<Path>)
    requires KnownOrder(db, order)
    ensures var sc, failed := ScanRun(env, db, order), Count(FailedLookups(env), order);
      sc.errors == failed && |sc.needs| == |order| - failed
  {
    if order != [] { ScanCounts(env, db, order[..|order| - 1]); }
  }

  // ---- the run ----

  lemma StartIsStart(env: Env, db: Db)
    ensures AtStart(StartOf(env, db))
  {
  }

  /** What a run gets to, writes and counts, whatever the judge, the files and cancellation do: the
      judgeable pairs among the first `n` waiting ones, in path order, get a row; the first `v`
      changed documents, in path order, are scanned; every counter of the summary follows. */
  lemma RunIs(env: Env, db: Db) returns (v: nat, n: nat)
    ensures var start := Prune(db);
      var order, keys := ScanOrder(start), KeyOrder(WorkOf(env, start));
      && v <= |order| && (v < |order| ==> env.cancelScan(v)) && (forall m: nat :: m < v ==> !env.cancelScan(m))
      && StopsAt(env, keys, n)
      && var judged, s := Judgeable(env, keys[..n]), Run(env, db).summary;
      var lost := Count(FailedLookups(env), order[..v]);
      && Evaluated(env, start).evaluated == judged
      && s.documentsScanned == v - lost && s.pairsEvaluated == |judged| && s.deferredPairs == |keys| - n
      && s.conflicts == Count(Conflicts(env), judged)
      && s.candidates == (if env.hasJudge then 0 else |judged|)
      && s.errors == lost + Count(FailedCalls(env), judged) + Count(FailedReads(env), keys[..n])
      && (s.cancelled <==> v < |order| || SawCancel(env, keys, n))
  {
    hide After, WorkOf, ScanOrder, ScanRun, EvalRun, Halts, SawCancel, Streak;
    var start := Prune(db);
    var order, keys := ScanOrder(start), KeyOrder(WorkOf(env, start));
    v := Visited(env, start);
    ScanStops(env.cancelScan, |order|, 0);
    ScanCounts(env, start, order[..v]);
    StartIsStart(env, start);
    KeyOrderCount(WorkOf(env, start));
    n := EvalIs(env, StartOf(env, start), WorkOf(env, start), keys);
    AfterMeans(env, StartOf(env, start), Evaluated(env, start), keys, n);
  }

  lemma AfterMeans(env: Env, start: Eval, ev: Eval, keys: seq<PairKey>, n: nat)
    requires After(env, start, ev, keys, n)
    ensures StopsAt(env, keys, n) && Tallies(env, start, ev, keys[..n])
    ensures ev.cancelled <==> start.cancelled || SawCancel(env, keys, n)
  {
    assert n == |keys| ==> !SawCancel(env, keys, n);
  }

  // ---- what the rows say ----

  lemma {:induction false} EvalSays(env: Env, start: Eval, work: map<PairKey, Work>, keys: seq<PairKey>, k: PairKey)
    requires KeysIn(work, keys) && start.evaluated == []
    requires k in EvalRun(env, start, work, keys).evaluated
    ensures var ev := EvalRun(env, start, work, keys);
      k in work && k in ev.pairs && Says(env, k, work[k], ev.pairs[k])
  {
    hide Says, EvaluatePair;
    if keys != [] {
      var front, last := keys[..|keys| - 1], keys[|keys| - 1];
      if k in EvalRun(env, start, work, front).evaluated { EvalSays(env, start, work, front, k); }
      OutcomeSays(env, last, work[last]);
    }
  }

  /** After the run, every pair it evaluated has a row that says what the judge answered. */
  lemma RowsSay(env: Env, db: Db, k: PairKey)
    requires k in Evaluated(env, Prune(db)).evaluated
    ensures var work, r := WorkOf(env, Prune(db)), Run(env, db).db;
      k in work && k in r.pairs && Says(env, k, work[k], r.pairs[k])
  {
    hide Says, WorkOf, DropStale, Done;
    var start := Prune(db);
    EvalSays(env, StartOf(env, start), WorkOf(env, start), KeyOrder(WorkOf(env, start)), k);
    EvaluatedRowIsCurrent(env, start, k);
    RowsAfter(env, start, k);
  }

  // ---- what waits ----

  /** No row at both current hashes settles the pair: one with a verdict, or any while there is no judge. */
  ghost predicate Unsettled(env: Env, db: Db, k: PairKey) {
    KnownKey(db, k) && !(CurrentRow(db, k) && (db.pairs[k].verdict == Candidate ==> !env.hasJudge))
  }

  /** `p` lists the other document of an unsettled pair, with this score. */
  ghost predicate Asks(env: Env, db: Db, p: Path, k: PairKey, score: real) {
    && env.neighbours(p).Some? && Unsettled(env, db, k)
    && var ranked := Neighbours(env, db.documents.Keys, p, env.neighbours(p).value);
       exists i: nat :: i < |ranked| && ranked[i].1 == score && k == KeyOf(p, ranked[i].0)
  }

  ghost predicate AskedFor(env: Env, db: Db, order: seq<Path>, k: PairKey, score: real) {
    exists i: nat :: i < |order| && Asks(env, db, order[i], k, score)
  }

  /** A stored candidate at both current hashes, a failed call included. */
  ghost predicate StoredCandidate(db: Db, k: PairKey) { CurrentRow(db, k) && db.pairs[k].verdict == Candidate }

  /** In the middle of document `p`: asked for by an earlier document, or by one of `p`'s first neighbours. */
  ghost predicate AskedSoFar(
      env: Env, db: Db, order: seq<Path>, p: Path, ranked: seq<Scored>, k: PairKey, score: real) {
    || AskedFor(env, db, order, k, score)
    || (Unsettled(env, db, k) && exists i: nat :: i < |ranked| && ranked[i].1 == score && k == KeyOf(p, ranked[i].0))
  }

  /** The pair is in the work exactly if asked for so far, with the highest score it was asked for with. */
  ghost predicate ScoredAt(
      env: Env, db: Db, order: seq<Path>, p: Path, ranked: seq<Scored>, work: map<PairKey, Work>, k: PairKey) {
    && (forall score :: AskedSoFar(env, db, order, p, ranked, k, score) ==> k in work && score <= work[k].similarity)
    && (k in work ==> AskedSoFar(env, db, order, p, ranked, k, work[k].similarity))
  }

  lemma AskedOneMore(
      env: Env, db: Db, order: seq<Path>, p: Path, ranked: seq<Scored>, s: Scored, k: PairKey, score: real)
    ensures AskedSoFar(env, db, order, p, ranked + [s], k, score)
            <==> AskedSoFar(env, db, order, p, ranked, k, score)
                 || (Unsettled(env, db, k) && s.1 == score && k == KeyOf(p, s.0))
  {
    hide Unsettled, AskedFor, KeyOf;
    var all := ranked + [s];
    assert all[|ranked|] == s && forall i: nat :: i < |ranked| ==> all[i] == ranked[i];
  }

  lemma UnsettledIs(env: Env, db: Db, k: PairKey)
    requires KnownKey(db, k)
    ensures Unsettled(env, db, k) <==> !PairSettled(db, k, env.hasJudge)
  {
  }

  lemma NeedStepScores(
      env: Env, db: Db, order: seq<Path>, p: Path, ranked: seq<Scored>, acc: Acc, s: Scored, k: PairKey)
    requires p in db.documents && s.0 in db.documents
    requires ScoredAt(env, db, order, p, ranked, acc.work, k)
    ensures ScoredAt(env, db, order, p, ranked + [s], NeedStep(db, env.hasJudge, p, acc, s).work, k)
  {
    hide Unsettled, AskedFor, KeyOf, AskedSoFar, PairSettled;
    KeyOfFacts(p, s.0);
    UnsettledIs(env, db, KeyOf(p, s.0));
    forall score
      ensures AskedSoFar(env, db, order, p, ranked + [s], k, score)
              <==> AskedSoFar(env, db, order, p, ranked, k, score)
                   || (Unsettled(env, db, k) && s.1 == score && k == KeyOf(p, s.0))
    {
      AskedOneMore(env, db, order, p, ranked, s, k, score);
    }
  }

  lemma {:induction false} NeedScores(
      env: Env, db: Db, order: seq<Path>, p: Path, ranked: seq<Scored>, work: map<PairKey, Work>, k: PairKey)
    requires Ranked(db, p, ranked) && ScoredAt(env, db, order, p, [], work, k)
    ensures ScoredAt(env, db, order, p, ranked, NeedRun(db, env.hasJudge, p, work, ranked).work, k)
  {
    hide ScoredAt;
    if ranked != [] {
      var n := |ranked| - 1;
      NeedScores(env, db, order, p, ranked[..n], work, k);
      NeedStepScores(env, db, order, p, ranked[..n], NeedRun(db, env.hasJudge, p, work, ranked[..n]), ranked[n], k);
      assert ranked[..n] + [ranked[n]] == ranked;
    }
  }

  lemma AskedNext(env: Env, db: Db, order: seq<Path>, p: Path, q: Path, k: PairKey, score: real)
    ensures AskedSoFar(env, db, order, q, [], k, score) <==> AskedFor(env, db, order, k, score)
    ensures AskedFor(env, db, order + [p], k, score)
            <==> AskedFor(env, db, order, k, score) || Asks(env, db, p, k, score)
    ensures env.neighbours(p).Some? ==>
              var ranked := Neighbours(env, db.documents.Keys, p, env.neighbours(p).value);
              Asks(env, db, p, k, score) || AskedFor(env, db, order, k, score)
              <==> AskedSoFar(env, db, order, p, ranked, k, score)
  {
    hide Unsettled, KeyOf, Neighbours;
    var all := order + [p];
    assert all[|order|] == p && forall i: nat :: i < |order| ==> all[i] == order[i];
  }

  lemma {:induction false} ScanScores(env: Env, db: Db, order: seq<Path>, p: Path, k: PairKey)
    requires KnownOrder(db, order)
    ensures ScoredAt(env, db, order, p, [], ScanRun(env, db, order).work, k)
  {
    hide ScoredAt;
    if order == [] {
      NobodyAsks(env, db, p, k);
    } else {
      var front, q := order[..|order| - 1], order[|order| - 1];
      assert front + [q] == order;
      ScanScores(env, db, front, q, k);
      ScanDocScores(env, db, front, q, k);
      BetweenDocuments(env, db, order, q, p, ScanRun(env, db, order).work, k);
    }
  }

  lemma BetweenDocuments(env: Env, db: Db, order: seq<Path>, p: Path, q: Path, work: map<PairKey, Work>, k: PairKey)
    requires ScoredAt(env, db, order, p, [], work, k)
    ensures ScoredAt(env, db, order, q, [], work, k)
  {
    hide AskedSoFar, AskedFor;
    forall score
      ensures AskedSoFar(env, db, order, p, [], k, score) <==> AskedSoFar(env, db, order, q, [], k, score)
    {
      AskedNext(env, db, order, p, p, k, score);
      AskedNext(env, db, order, p, q, k, score);
    }
  }

  lemma NobodyAsks(env: Env, db: Db, p: Path, k: PairKey)
    ensures ScoredAt(env, db, [], p, [], map[], k)
  {
  }

  lemma ScanDocScores(env: Env, db: Db, order: seq<Path>, p: Path, k: PairKey)
    requires KnownOrder(db, order) && p in db.documents
    requires ScoredAt(env, db, order, p, [], ScanRun(env, db, order).work, k)
    ensures ScoredAt(env, db, order + [p], p, [], ScanRun(env, db, order + [p]).work, k)
  {
    hide AskedSoFar, AskedFor, Asks, KeyOf, Neighbours, ScanRun;
    var before := ScanRun(env, db, order);
    ScanSnoc(env, db, order, p);
    forall score
      ensures AskedSoFar(env, db, order + [p], p, [], k, score) <==> AskedFor(env, db, order + [p], k, score)
      ensures AskedSoFar(env, db, order, p, [], k, score) <==> AskedFor(env, db, order, k, score)
    {
      AskedNext(env, db, order + [p], p, p, k, score);
      AskedNext(env, db, order, p, p, k, score);
    }
    match env.neighbours(p)
    case None =>
      forall score
        ensures !Asks(env, db, p, k, score)
      {
        NoListNoAsk(env, db, p, k, score);
      }
      forall score
        ensures AskedFor(env, db, order + [p], k, score) <==> AskedFor(env, db, order, k, score)
      {
        AskedNext(env, db, order, p, p, k, score);
      }
    case Some(hits) =>
      var ranked := Neighbours(env, db.documents.Keys, p, hits);
      NeedMeaning(env, db, before.work, p, k);
      NeedScores(env, db, order, p, ranked, before.work, k);
      forall score
        ensures AskedFor(env, db, order + [p], k, score) <==> AskedSoFar(env, db, order, p, ranked, k, score)
      {
        AskedNext(env, db, order, p, p, k, score);
      }
  }

  lemma ScanSnoc(env: Env, db: Db, order: seq<Path>, p: Path)
    requires KnownOrder(db, order) && p in db.documents
    ensures KnownOrder(db, order + [p])
    ensures ScanRun(env, db, order + [p]) == ScanDoc(env, db, ScanRun(env, db, order), p)
  {
    assert (order + [p])[..|order|] == order;
  }

  lemma NoListNoAsk(env: Env, db: Db, p: Path, k: PairKey, score: real)
    requires env.neighbours(p).None?
    ensures !Asks(env, db, p, k, score)
  {
  }

  // ---- the work of a run ----

  /** What a run has to evaluate: the unsettled pairs the scanned documents ask for, with the highest
      score, and, if there is a judge and every changed document was scanned, the stored candidates. */
  lemma WorkIs(env: Env, db: Db, k: PairKey)
    ensures var order, work := ScanOrder(db)[..Visited(env, db)], WorkOf(env, db);
      var asked := exists score :: AskedFor(env, db, order, k, score);
      && (k in work <==> asked || (env.hasJudge && Visited(env, db) == |ScanOrder(db)| && StoredCandidate(db, k)))
      && (k in work && asked ==>
           && AskedFor(env, db, order, k, work[k].similarity)
           && forall score :: AskedFor(env, db, order, k, score) ==> score <= work[k].similarity)
      && (k in work && !asked ==> work[k].similarity == db.pairs[k].similarity)
  {
    hide AskedFor, AskedSoFar, ScanRun, ScanOrder;
    var order := ScanOrder(db)[..Visited(env, db)];
    ScanScores(env, db, order, "", k);
    forall score
      ensures AskedSoFar(env, db, order, "", [], k, score) <==> AskedFor(env, db, order, k, score)
    {
      AskedNext(env, db, order, "", "", k, score);
    }
  }

  /** Strictly earlier in path order: by the first path, then by the second. */
  ghost predicate Earlier(x: PairKey, y: PairKey) {
    (x.0 != y.0 && TextLe(x.0, y.0)) || (x.0 == y.0 && x.1 != y.1 && TextLe(x.1, y.1))
  }

  /** The waiting pairs are taken in path order, each once, and so are the changed documents. */
  lemma InPathOrder(env: Env, db: Db)
    ensures var keys, order := KeyOrder(WorkOf(env, db)), ScanOrder(db);
      && (forall k :: k in keys <==> k in WorkOf(env, db))
      && (forall i, j :: 0 <= i < j < |keys| ==> Earlier(keys[i], keys[j]))
      && (forall p :: p in order <==> p in db.documents && !Analysed(db, p))
      && (forall i, j :: 0 <= i < j < |order| ==> order[i] != order[j] && TextLe(order[i], order[j]))
  {
    hide WorkOf;
    var keys, order := KeyOrder(WorkOf(env, db)), ScanOrder(db);
    PairOrder();
    TextOrder();
    ScanOrderIsChanged(db);
    SortedElements(WorkOf(env, db).Keys, PairLe);
    forall i, j | 0 <= i < j < |keys|
      ensures Earlier(keys[i], keys[j])
    {
      SortedAscends(WorkOf(env, db).Keys, PairLe, i, j);
    }
    forall i, j | 0 <= i < j < |order|
      ensures order[i] != order[j] && TextLe(order[i], order[j])
    {
      SortedAscends(Changed(db), TextLe, i, j);
    }
  }
}
