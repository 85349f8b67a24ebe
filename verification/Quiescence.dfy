/** Sequences of contradiction runs over an unchanged corpus (src/contradictions.rs): no pair is
    judged twice, every pair is judged, and from any stored state the runs come to rest. */
module Quiescence {
  import opened Ordering
  import opened Contradictions
  import opened RunLaws
  import opened Convergence

  /** What a run meets, run by run. */
  type Envs = nat -> Env

  /** The same store and limits, and a judge in both or in neither; answers and caps may differ. */
  ghost predicate Alike(a: Env, b: Env) { SameStore(a, b) && a.hasJudge == b.hasJudge }

  ghost predicate GoodAt(envs: Envs, i: nat) { Good(envs(i)) && Alike(envs(0), envs(i)) }

  ghost predicate FollowsAt(envs: Envs, states: seq<Db>, i: nat)
    requires i + 1 < |states|
  {
    states[i + 1] == Run(envs(i), states[i]).db
  }

  /** A history of good runs: each state is what one run makes of the state before. */
  ghost predicate Runs(envs: Envs, states: seq<Db>) {
    && (forall i: nat :: GoodAt(envs, i))
    && forall i: nat :: i + 1 < |states| ==> FollowsAt(envs, states, i)
  }

  lemma SameNeeds(a: Env, b: Env, db: Db, p: Path, k: PairKey)
    requires Alike(a, b)
    ensures NeedsPair(a, db, p, k) <==> NeedsPair(b, db, p, k)
  {
    hide IsNeighbour;
    forall q
      ensures IsNeighbour(a, db.documents.Keys, p, q) <==> IsNeighbour(b, db.documents.Keys, p, q)
    {
      SameNeighbours(a, b, db.documents.Keys, p, q);
    }
  }

  /** What waits does not depend on what the judge would say, nor on the cap. */
  lemma SameWork(a: Env, b: Env, db: Db)
    requires Good(a) && Good(b) && Alike(a, b)
    ensures WorkOf(a, db).Keys == WorkOf(b, db).Keys
  {
    hide WorkOf, NeedsPair, ScanOrder;
    GoodWork(a, db);
    GoodWork(b, db);
    forall k
      ensures k in WorkOf(a, db) <==> k in WorkOf(b, db)
    {
      forall p
        ensures NeedsPair(a, db, p, k) <==> NeedsPair(b, db, p, k)
      {
        SameNeeds(a, b, db, p, k);
      }
    }
  }

  lemma SameQueue(a: Env, b: Env, db: Db)
    requires Good(a) && Good(b) && Alike(a, b)
    ensures Queue(a, db) == Queue(b, db)
    ensures Quiet(a, db) <==> Quiet(b, db)
  {
    hide WorkOf, Changed;
    SameWork(a, b, Prune(db));
    SameWork(a, b, db);
    assert WorkOf(a, db) == map[] <==> WorkOf(a, db).Keys == {};
    assert WorkOf(b, db) == map[] <==> WorkOf(b, db).Keys == {};
  }

  // ---- exactly once ----

  /** The next run's work is this run's minus what was evaluated exactly when reopened documents
      need no pair outside this run's work. */
  lemma NextWorkExactly(env: Env, db: Db)
    requires Good(env)
    ensures WorkOf(env, DbAfter(env, db)).Keys == WorkOf(env, db).Keys - Elements(Evaluated(env, db).evaluated)
            <==> forall p, k :: Reopened(env, db, p) && NeedsPair(env, db, p, k) ==> k in WorkOf(env, db)
  {
    hide WorkOf, Evaluated, Pending, DbAfter, Reopened, NeedsPair;
    GoodWork(env, db);
    GoodWork(env, DbAfter(env, db));
    forall k
      ensures k in WorkOf(env, DbAfter(env, db))
              <==> k !in Evaluated(env, db).evaluated
                   && (k in WorkOf(env, db) || exists p :: Reopened(env, db, p) && NeedsPair(env, db, p, k))
    {
      NextPending(env, db, k);
    }
    forall k | k in Evaluated(env, db).evaluated
      ensures k in WorkOf(env, db)
    {
      EvaluatedInWork(env, db, k);
    }
    var next := WorkOf(env, DbAfter(env, db)).Keys;
    if p, k :| Reopened(env, db, p) && NeedsPair(env, db, p, k) && k !in WorkOf(env, db) {
      assert k in next;
    } else {
      assert next == WorkOf(env, db).Keys - Elements(Evaluated(env, db).evaluated);
    }
  }

  /** So it is with nothing outdated stored: then no document is reopened. */
  lemma NextWork(env: Env, db: Db)
    requires Good(env) && Tidy(db)
    ensures WorkOf(env, DbAfter(env, db)).Keys
            == WorkOf(env, db).Keys - Elements(Evaluated(env, db).evaluated)
  {
    hide WorkOf, Evaluated, DbAfter, Reopened, NeedsPair;
    forall p
      ensures !Reopened(env, db, p)
    {
      NoneReopened(env, db, p);
    }
    NextWorkExactly(env, db);
  }

  lemma NoneReopened(env: Env, db: Db, p: Path)
    requires Tidy(db)
    ensures !Reopened(env, db, p)
  {
    hide Evaluated, Done, DbAfter;
    TidyDropsNothing(env, db);
    DoneKnown(env, db);
    AnalysedAfter(env, db, p);
  }

  lemma NextOrder(env: Env, db: Db)
    requires Good(env) && Tidy(db)
    ensures var keys := KeyOrder(WorkOf(env, db));
      KeyOrder(WorkOf(env, DbAfter(env, db))) == keys[Min(|keys|, env.params.maxPairs)..]
  {
    NextWork(env, db);
    GoodRun(env, db);
    PairOrder();
    var keys := KeyOrder(WorkOf(env, db));
    SortedDrop(WorkOf(env, db).Keys, PairLe, Min(|keys|, env.params.maxPairs));
  }

  /** The pairs waiting before a run, in path order, and those the run evaluates. */
  function Queue(env: Env, db: Db): seq<PairKey> { KeyOrder(WorkOf(env, Prune(db))) }

  function Taken(env: Env, db: Db): seq<PairKey> { Evaluated(env, Prune(db)).evaluated }

  function Taking<T>(s: seq<T>, n: nat): seq<T> { s[..Min(|s|, n)] }

  function Leaving<T>(s: seq<T>, n: nat): seq<T> { s[Min(|s|, n)..] }

  /** One run takes a cap's worth off the front of the queue. */
  lemma QueueStep(env: Env, db: Db)
    requires Good(env) && UpToDate(db)
    ensures UpToDate(Run(env, db).db)
    ensures Taken(env, db) == Taking(Queue(env, db), env.params.maxPairs)
    ensures Queue(env, Run(env, db).db) == Leaving(Queue(env, db), env.params.maxPairs)
  {
    hide Prune, Evaluated, WorkOf, UpToDate;
    PruneUpToDate(db);
    TidyAfter(env, Prune(db));
    GoodRun(env, Prune(db));
    NextOrder(env, Prune(db));
  }

  lemma Follow(envs: Envs, states: seq<Db>, i: nat)
    requires Runs(envs, states)
    ensures Good(envs(i)) && Alike(envs(0), envs(i)) && Good(envs(0))
    ensures i + 1 < |states| ==> states[i + 1] == Run(envs(i), states[i]).db
  {
    assert GoodAt(envs, i) && GoodAt(envs, 0);
    assert i + 1 < |states| ==> FollowsAt(envs, states, i);
  }

  lemma LeavingTwice<T>(s: seq<T>, a: nat, b: nat)
    ensures Leaving(s, 0) == s && Leaving(Leaving(s, a), b) == Leaving(s, a + b)
  {
  }

  /** How many pairs the first `n` runs may evaluate. */
  function Capacity(envs: Envs, n: nat): nat {
    if n == 0 then 0 else Capacity(envs, n - 1) + envs(n - 1).params.maxPairs
  }

  lemma CapacityStep(envs: Envs, n: nat)
    ensures Capacity(envs, 0) == 0 && Capacity(envs, n + 1) == Capacity(envs, n) + envs(n).params.maxPairs
  {
  }

  lemma {:induction false} QueueAlong(envs: Envs, states: seq<Db>, i: nat)
    requires Runs(envs, states) && i < |states| && UpToDate(states[0])
    ensures UpToDate(states[i]) && Queue(envs(i), states[i]) == Leaving(Queue(envs(0), states[0]), Capacity(envs, i))
  {
    hide *;
    Follow(envs, states, i);
    if i == 0 {
      CapacityStep(envs, 0);
      LeavingTwice(Queue(envs(0), states[0]), 0, 0);
    } else {
      QueueAlong(envs, states, i - 1);
      Follow(envs, states, i - 1);
      QueueStep(envs(i - 1), states[i - 1]);
      AlikeTwo(envs(0), envs(i - 1), envs(i));
      SameQueue(envs(i - 1), envs(i), states[i]);
      CapacityStep(envs, i - 1);
      LeavingTwice(Queue(envs(0), states[0]), Capacity(envs, i - 1), envs(i - 1).params.maxPairs);
    }
  }

  lemma AlikeTwo(a: Env, b: Env, c: Env)
    requires Alike(a, b) && Alike(a, c)
    ensures Alike(b, c)
  {
  }

  /** The pairs waiting at the start are evaluated once each, in path order: each run evaluates its
      cap's worth of them, right after those the earlier runs had room for. */
  lemma ExactlyOnce(envs: Envs, states: seq<Db>, i: nat)
    requires Runs(envs, states) && i < |states| && UpToDate(states[0])
    ensures Taken(envs(i), states[i])
            == Taking(Leaving(Queue(envs(0), states[0]), Capacity(envs, i)), envs(i).params.maxPairs)
  {
    hide *;
    QueueAlong(envs, states, i);
    Follow(envs, states, i);
    QueueStep(envs(i), states[i]);
  }

  // ---- never twice, from any stored state ----

  ghost predicate SettledIn(env: Env, db: Db, k: PairKey) {
    KnownKey(db, k) && PairSettled(db, k, env.hasJudge)
  }

  lemma SettledNotPending(env: Env, db: Db, k: PairKey)
    requires Good(env) && SettledIn(env, db, k)
    ensures k !in WorkOf(env, db)
  {
    hide WorkOf, ScanOrder;
    GoodWork(env, db);
  }

  lemma TakenKnown(env: Env, db: Db, k: PairKey)
    requires k in Evaluated(env, db).evaluated
    ensures KnownKey(db, k) && k in WorkOf(env, db)
  {
    hide Evaluated;
    EvaluatedInWork(env, db, k);
    WorkFacts(env, db);
    assert WorkAt(db, WorkOf(env, db), k);
  }

  lemma EvaluatedInWork(env: Env, db: Db, k: PairKey)
    requires k in Evaluated(env, db).evaluated
    ensures k in WorkOf(env, db)
  {
    hide WorkOf, StartOf, KeyOrder;
    StartsEmpty(env, db);
    EvalRows(env, StartOf(env, db), WorkOf(env, db), KeyOrder(WorkOf(env, db)), k);
  }

  lemma StartsEmpty(env: Env, db: Db)
    ensures StartOf(env, db).evaluated == []
  {
  }

  /** A pair settled, or evaluated by the run, is settled after it. */
  lemma SettledStays(env: Env, db: Db, k: PairKey)
    requires Good(env) && (SettledIn(env, db, k) || k in Taken(env, db))
    ensures SettledIn(env, Run(env, db).db, k)
  {
    hide Evaluated, DbAfter;
    if k in Taken(env, db) { TakenKnown(env, Prune(db), k); }
    SettledAfter(env, Prune(db), k);
  }

  lemma SettledAlike(a: Env, b: Env, db: Db, k: PairKey)
    requires Alike(a, b) && SettledIn(a, db, k)
    ensures SettledIn(b, db, k)
  {
  }

  lemma {:induction false} SettledAlong(envs: Envs, states: seq<Db>, i: nat, j: nat, k: PairKey)
    requires Runs(envs, states) && i < j < |states| && k in Taken(envs(i), states[i])
    ensures SettledIn(envs(j), states[j], k)
    decreases j
  {
    hide *;
    Follow(envs, states, j - 1);
    Follow(envs, states, j);
    if i + 1 < j { SettledAlong(envs, states, i, j - 1, k); }
    SettledStays(envs(j - 1), states[j - 1], k);
    AlikeTwo(envs(0), envs(j - 1), envs(j));
    SettledAlike(envs(j - 1), envs(j), states[j], k);
  }

  /** Whatever was stored before, a pair evaluated by one run is not even waiting in any later one. */
  lemma NeverTwice(envs: Envs, states: seq<Db>, i: nat, j: nat, k: PairKey)
    requires Runs(envs, states) && i < j < |states| && k in Taken(envs(i), states[i])
    ensures k !in WorkOf(envs(j), Prune(states[j]))
  {
    hide WorkOf, Run, Taken, Alike, Good;
    SettledAlong(envs, states, i, j, k);
    Follow(envs, states, j);
    SettledNotPending(envs(j), Prune(states[j]), k);
  }

  // ---- coming to rest, from any stored state ----

  /** Nothing is waiting: the run neither scans nor evaluates. */
  ghost predicate Quiet(env: Env, db: Db) { Changed(db) == {} && WorkOf(env, db) == map[] }

  lemma Members<T>(s: seq<T>)
    ensures s != [] ==> exists x :: x in s
  {
    if s != [] { assert s[0] in s; }
  }

  /** A run that finds nothing changes nothing and reports nothing. */
  lemma QuietRunIsIdle(env: Env, db: Db)
    requires Quiet(env, db)
    ensures DbAfter(env, db) == db
    ensures SummaryOf(env, db) == Summary(0, 0, 0, 0, 0, 0, false)
  {
    ScanOrderIsChanged(db);
    Members(ScanOrder(db));
    KeyOrderCount(WorkOf(env, db));
    assert KeyOrder(WorkOf(env, db)) == [];
    assert Done(env, db) == [];
  }

  /** Pairs of documents not settled, and rows with an outdated hash. */
  ghost function Unsettled(env: Env, db: Db): set<PairKey> {
    set p, q | p in db.documents && q in db.documents && !PairSettled(db, (p, q), env.hasJudge) :: (p, q)
  }

  ghost function Outdated(db: Db): set<PairKey> {
    set k | k in db.pairs && !CurrentRow(db, k)
  }

  lemma InUnsettled(env: Env, db: Db, k: PairKey)
    ensures k in Unsettled(env, db) <==> KnownKey(db, k) && !PairSettled(db, k, env.hasJudge)
  {
    assert k == (k.0, k.1);
  }

  lemma UnsettledShrinks(env: Env, db: Db)
    requires Good(env)
    ensures Elements(Evaluated(env, db).evaluated) <= Unsettled(env, db)
    ensures Unsettled(env, DbAfter(env, db)) == Unsettled(env, db) - Elements(Evaluated(env, db).evaluated)
  {
    hide Evaluated, DbAfter, PairSettled, Unsettled, WorkOf;
    DocumentsKept(env, db);
    forall k | k in Evaluated(env, db).evaluated
      ensures k in Unsettled(env, db)
    {
      TakenKnown(env, db, k);
      InUnsettled(env, db, k);
      if PairSettled(db, k, env.hasJudge) { SettledNotPending(env, db, k); }
    }
    forall k
      ensures k in Unsettled(env, DbAfter(env, db)) <==> k in Unsettled(env, db) && k !in Evaluated(env, db).evaluated
    {
      InUnsettled(env, db, k);
      InUnsettled(env, DbAfter(env, db), k);
      if KnownKey(db, k) { SettledAfter(env, db, k); }
    }
  }

  lemma EvaluatedNotOutdated(env: Env, db: Db, k: PairKey)
    requires k in Evaluated(env, db).evaluated
    ensures k !in Outdated(DbAfter(env, db))
  {
    hide Evaluated, DbAfter, DropStale, Done;
    DocumentsKept(env, db);
    EvaluatedRowIsCurrent(env, db, k);
    RowsAfter(env, db, k);
    MarkedRows(env, db);
  }

  lemma MarkedRows(env: Env, db: Db)
    ensures Marked(env, db).pairs == Evaluated(env, db).pairs
  {
  }

  lemma OutdatedShrinks(env: Env, db: Db)
    ensures Outdated(DbAfter(env, db)) <= Outdated(db)
  {
    hide Evaluated, DbAfter;
    DocumentsKept(env, db);
    forall k | k in Outdated(DbAfter(env, db))
      ensures k in Outdated(db)
    {
      if k in Evaluated(env, db).evaluated { EvaluatedNotOutdated(env, db, k); }
      RowKept(env, db, k);
    }
  }

  lemma RequiredInWork(env: Env, db: Db, i: nat, k: PairKey)
    requires Good(env) && i < |Scanned(env, db).needs|
    ensures k in Scanned(env, db).needs[i].required ==> k in WorkOf(env, db)
  {
    hide ScanOrder, Changed;
    GoodWork(env, db);
    ScanFacts(env, db, ScanOrder(db));
    ScanNeeds(env, db, ScanOrder(db), Scanned(env, db).needs[i].path);
    assert NeedAt(env, db, Scanned(env, db).needs, i);
  }

  /** The run gets through all its work. */
  ghost predicate AllTaken(env: Env, db: Db) {
    forall k :: k in WorkOf(env, db) ==> k in Evaluated(env, db).evaluated
  }

  /** Then every changed document is done. */
  lemma AllDone(env: Env, db: Db, p: Path)
    requires Good(env) && AllTaken(env, db) && p in Changed(db)
    ensures p in Done(env, db)
  {
    hide ScanOrder, Changed, Evaluated;
    var order, needs := ScanOrder(db), Scanned(env, db).needs;
    GoodWork(env, db);
    ScanOrderIsChanged(db);
    ScanNeeds(env, db, order, p);
    var i: nat :| i < |needs| && needs[i].path == p;
    forall j | 0 <= j < |needs[i].required|
      ensures needs[i].required[j] in Evaluated(env, db).evaluated
    {
      RequiredInWork(env, db, i, needs[i].required[j]);
    }
    DoneIsNeeded(needs, Elements(Evaluated(env, db).evaluated), p);
  }

  /** A run that gets through all its work either finishes every document or drops an outdated row. */
  lemma FullRunFinishes(env: Env, db: Db)
    requires Good(env) && AllTaken(env, db)
    ensures Changed(DbAfter(env, db)) == {} || Outdated(DbAfter(env, db)) < Outdated(db)
  {
    hide Evaluated, DropStale, WorkOf, Done, DbAfter;
    var marked, done := Marked(env, db), Done(env, db);
    DoneKnown(env, db);
    OutdatedShrinks(env, db);
    if k :| k in marked.pairs && Condemned(marked, k, done) {
      DropsOutdated(env, db, k);
    } else {
      AllKept(env, db);
    }
  }

  lemma AllKept(env: Env, db: Db)
    requires Good(env) && AllTaken(env, db)
    requires Known(Marked(env, db), Done(env, db))
    requires forall k :: k in Marked(env, db).pairs ==> !Condemned(Marked(env, db), k, Done(env, db))
    ensures Changed(DbAfter(env, db)) == {}
  {
    hide Evaluated, WorkOf, Done, Marked;
    var marked, done := Marked(env, db), Done(env, db);
    forall k, p | k in marked.pairs && p in done
      ensures !StaleAt(marked, k, p)
    {
      assert !Condemned(marked, k, done);
    }
    NothingDropped(marked, done);
    forall p | p in db.documents
      ensures Analysed(marked, p)
    {
      MarkedAre(env, db, p);
      if p in Changed(db) { AllDone(env, db, p); }
    }
  }

  lemma DropsOutdated(env: Env, db: Db, k: PairKey)
    requires Known(Marked(env, db), Done(env, db))
    requires k in Marked(env, db).pairs && Condemned(Marked(env, db), k, Done(env, db))
    ensures k in Outdated(db) && k !in Outdated(DbAfter(env, db))
  {
    hide Evaluated, DropStale, WorkOf, Done, DbAfter;
    MarkedRows(env, db);
    EvaluatedRowIsCurrent(env, db, k);
    RowsAfter(env, db, k);
  }

  // ---- how far from rest ----

  /** How far the stored state is from rest. */
  ghost function Distance(env: Env, db: Db): nat {
    2 * (|Unsettled(env, db)| + |Outdated(db)|) + (if Changed(db) == {} then 0 else 1)
  }

  lemma SmallerSet<T>(a: set<T>, b: set<T>)
    requires a <= b
    ensures |a| <= |b| && (a != b ==> |a| < |b|)
  {
    assert b == a + (b - a);
  }

  /** Every run that finds anything to do brings the stored state nearer to rest. */
  lemma Progress(env: Env, db: Db)
    requires Good(env) && !Quiet(env, db)
    ensures Distance(env, DbAfter(env, db)) < Distance(env, db)
  {
    hide Evaluated, WorkOf, DbAfter, Unsettled, Outdated, Changed;
    var next := DbAfter(env, db);
    UnsettledShrinks(env, db);
    OutdatedShrinks(env, db);
    SmallerSet(Unsettled(env, next), Unsettled(env, db));
    SmallerSet(Outdated(next), Outdated(db));
    if WorkOf(env, db) == map[] {
      FullRunFinishes(env, db);
    } else {
      FirstIsTaken(env, db);
    }
  }

  /** Unless no work is left, a run evaluates something. */
  lemma FirstIsTaken(env: Env, db: Db)
    requires Good(env) && WorkOf(env, db) != map[]
    ensures exists k :: k in Elements(Evaluated(env, db).evaluated)
  {
    hide WorkOf, Evaluated;
    GoodRun(env, db);
    KeyOrderCount(WorkOf(env, db));
    assert WorkOf(env, db).Keys != {};
    assert Evaluated(env, db).evaluated[0] in Elements(Evaluated(env, db).evaluated);
  }

  lemma PruneRows(db: Db)
    ensures Prune(db).documents == db.documents && Changed(Prune(db)) == Changed(db)
    ensures Outdated(Prune(db)) <= Outdated(db)
    ensures forall k :: KnownKey(db, k) ==> Lookup(Prune(db).pairs, k) == Lookup(db.pairs, k)
    ensures forall p :: p in db.documents ==> Lookup(Prune(db).analyzed, p) == Lookup(db.analyzed, p)
    ensures db.documents == map[] ==> Prune(db) == db
    ensures db.documents != map[] ==>
              (forall k :: k in Prune(db).pairs ==> KnownKey(db, k)) && Prune(db).analyzed.Keys <= db.documents.Keys
  {
  }

  lemma PruneNearer(env: Env, db: Db)
    ensures Distance(env, Prune(db)) <= Distance(env, db)
  {
    hide Unsettled, Prune, Outdated, Changed;
    var r := Prune(db);
    PruneRows(db);
    forall k
      ensures k in Unsettled(env, r) <==> k in Unsettled(env, db)
    {
      InUnsettled(env, r, k);
      InUnsettled(env, db, k);
    }
    assert Unsettled(env, r) == Unsettled(env, db);
    SmallerSet(Outdated(r), Outdated(db));
  }

  lemma PruneTwice(db: Db)
    ensures Prune(Prune(db)) == Prune(db)
  {
  }

  lemma SameDistance(a: Env, b: Env, db: Db)
    requires Alike(a, b)
    ensures Distance(a, db) == Distance(b, db)
  {
    hide Outdated, Changed;
    assert Unsettled(a, db) == Unsettled(b, db);
  }

  lemma {:induction false} Nearer(envs: Envs, states: seq<Db>, i: nat)
    requires Runs(envs, states) && i < |states|
    ensures Quiet(envs(i), Prune(states[i])) || Distance(envs(i), states[i]) + i <= Distance(envs(0), states[0])
  {
    hide *;
    if i > 0 {
      var db, before, env := states[i - 1], envs(i - 1), envs(i);
      Nearer(envs, states, i - 1);
      Follow(envs, states, i - 1);
      Follow(envs, states, i);
      AlikeTwo(envs(0), before, env);
      RunIsAfter(before, db);
      PruneNearer(before, db);
      PruneNearer(before, states[i]);
      SameDistance(before, env, states[i]);
      if Quiet(before, Prune(db)) {
        QuietRunIsIdle(before, Prune(db));
        PruneTwice(db);
        SameQueue(before, env, Prune(db));
      } else {
        Progress(before, Prune(db));
      }
    }
  }

  lemma RunIsAfter(env: Env, db: Db)
    ensures Run(env, db).db == DbAfter(env, Prune(db))
  {
  }

  /** From any stored state, whatever earlier failures, edits and removals left in it, the runs
      over an unchanged corpus come to rest within a bound known beforehand. */
  lemma ComesToRest(envs: Envs, states: seq<Db>, i: nat)
    requires Runs(envs, states) && i < |states| && Distance(envs(0), states[0]) < i
    ensures Quiet(envs(i), Prune(states[i]))
  {
    hide *;
    Nearer(envs, states, i);
    DistanceNat(envs(i), states[i]);
  }

  lemma DistanceNat(env: Env, db: Db)
    ensures Distance(env, db) >= 0
  {
  }

  // ---- the last run ----

  lemma NothingLeft<T>(s: seq<T>, a: nat, b: nat)
    requires a + b >= |s|
    ensures Taking(Leaving(s, a), b) == Leaving(s, a) && Leaving(s, a + b) == []
  {
  }

  lemma LastRunTakesAll(envs: Envs, states: seq<Db>, i: nat)
    requires Runs(envs, states) && i + 1 < |states| && UpToDate(states[0])
    requires Capacity(envs, i + 1) >= |Queue(envs(0), states[0])|
    ensures UpToDate(states[i]) && Taken(envs(i), states[i]) == Queue(envs(i), states[i])
    ensures Queue(envs(i + 1), states[i + 1]) == []
  {
    hide *;
    QueueAlong(envs, states, i);
    QueueAlong(envs, states, i + 1);
    Follow(envs, states, i);
    QueueStep(envs(i), states[i]);
    CapacityStep(envs, i);
    NothingLeft(Queue(envs(0), states[0]), Capacity(envs, i), envs(i).params.maxPairs);
  }

  lemma EmptyQueue(env: Env, db: Db)
    requires Queue(env, db) == []
    ensures WorkOf(env, Prune(db)) == map[]
  {
    hide WorkOf;
    KeyOrderCount(WorkOf(env, Prune(db)));
  }

  lemma InQueue(env: Env, db: Db, k: PairKey)
    ensures k in Queue(env, db) <==> k in WorkOf(env, Prune(db))
  {
    hide WorkOf, Prune;
    PairOrder();
    SortedElements(WorkOf(env, Prune(db)).Keys, PairLe);
  }

  lemma QueueTaken(env: Env, db: Db)
    requires Taken(env, db) == Queue(env, db)
    ensures AllTaken(env, Prune(db))
  {
    hide WorkOf, Evaluated, Prune;
    PairOrder();
    SortedElements(WorkOf(env, Prune(db)).Keys, PairLe);
  }

  lemma UpToDateIsNotOutdated(db: Db)
    requires UpToDate(db) && db.documents != map[]
    ensures Outdated(Prune(db)) == {}
  {
    forall k | k in Prune(db).pairs
      ensures CurrentRow(Prune(db), k)
    {
      assert UpToDateAt(db, k);
    }
  }

  /** With nothing outdated stored, as soon as the runs could evaluate every pair waiting at the
      start there is nothing left: the next run neither scans nor evaluates. */
  lemma QuietAfterCapacity(envs: Envs, states: seq<Db>, i: nat)
    requires Runs(envs, states) && i + 1 < |states| && UpToDate(states[0])
    requires Capacity(envs, i + 1) >= |Queue(envs(0), states[0])|
    ensures Quiet(envs(i + 1), Prune(states[i + 1]))
  {
    hide Queue, Taken, UpToDate, Runs, Prune, Run, WorkOf, Outdated, Good, Alike, Capacity;
    var db, env := states[i], envs(i);
    LastRunTakesAll(envs, states, i);
    EmptyQueue(envs(i + 1), states[i + 1]);
    QueueTaken(env, db);
    Follow(envs, states, i);
    RunIsAfter(env, db);
    FullRunFinishes(env, Prune(db));
    PruneRows(db);
    PruneRows(states[i + 1]);
    DocumentsKept(env, Prune(db));
    if db.documents != map[] { UpToDateIsNotOutdated(db); }
  }
}
