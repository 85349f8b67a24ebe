/** Where the run laws stop (src/contradictions.rs): histories and stored states for which an
    unconditional form of them fails. */
module RunLimits {
  import opened Options
  import opened Contradictions
  import opened RunLaws
  import opened RunInvariant
  import opened Convergence
  import opened Quiescence
  import Top = Neighbours

  /** Hits for "a": "b", then "c". */
  const HITS: seq<Hit> := [Hit(Some("b"), 0.9), Hit(Some("c"), 0.5)]

  /** A store in which only "a" has neighbours; no judge, one pair per run. */
  function OneSided(topK: nat): Env {
    Env((p: Path) => if p == "a" then Some(HITS) else Some([]), false,
        (k: PairKey) => Verdict(false), (p: Path) => Text, (i: nat) => false, (i: nat) => false, Params(topK, 0.0, 1))
  }

  lemma ScoresOfA(known: set<Path>)
    ensures var best := BestScores(HITS, "a", known, 0.0);
      && (forall q :: q in best <==> (q == "b" || q == "c") && q in known)
      && ("b" in known ==> best["b"] == 0.9) && ("c" in known ==> best["c"] == 0.5)
  {
    assert HITS[..1][..0] == [] && HITS[..1] == [HITS[0]];
    assert BestScores(HITS[..1], "a", known, 0.0) == if "b" in known then map["b" := 0.9] else map[];
  }

  /** "b" is always listed; "c" if there is room for both, or no "b"; no other document is. */
  lemma NeighboursOfA(known: set<Path>, topK: nat, q: Path)
    requires topK >= 1
    ensures IsNeighbour(OneSided(topK), known, "a", q)
            <==> q in known && (q == "b" || (q == "c" && (topK > 1 || "b" !in known)))
  {
    hide BestScores, TopK, IsNeighbour;
    ScoresOfA(known);
    var best, r := BestScores(HITS, "a", known, 0.0), TopK(HITS, "a", known, topK, 0.0);
    NeighbourIsListed(OneSided(topK), known, "a", q);
    Top.ListedIsScored(HITS, "a", known, topK, 0.0, q);
    Top.ListIsTop(HITS, "a", known, topK, 0.0);
    assert forall i: nat :: i < |r| ==> Top.ListedAt(r, best, i);
    assert |r| > 1 ==> Top.RankedAt(r, 0, 1);
    if "b" in best && ("b", best["b"]) !in r {
      Top.LeftOut(HITS, "a", known, topK, 0.0, "b");
      assert Top.ListedAt(r, best, 0) && r[0] in r;
    }
    if "c" in best && ("c", best["c"]) !in r {
      Top.LeftOut(HITS, "a", known, topK, 0.0, "c");
      assert Top.ListedAt(r, best, 0) && r[0] in r;
      assert topK > 1 ==> Top.ListedAt(r, best, 1) && r[1] in r;
    }
  }

  lemma NoOtherNeighbour(topK: nat, known: set<Path>, p: Path, q: Path)
    requires p != "a"
    ensures !IsNeighbour(OneSided(topK), known, p, q)
  {
    hide IsNeighbour, TopK;
    NeighbourIsListed(OneSided(topK), known, p, q);
    Top.ListedIsScored([], p, known, topK, 0.0, q);
  }

  /** Only "a" asks for pairs, with the neighbours it lists, while it is not analysed. */
  lemma WorkIsOfA(topK: nat, db: Db, k: PairKey)
    requires topK >= 1 && k in WorkOf(OneSided(topK), db)
    ensures "a" in Changed(db) && k.0 == "a" && k.1 in db.documents
    ensures k.1 == "b" || (k.1 == "c" && (topK > 1 || "b" !in db.documents))
  {
    hide WorkOf, IsNeighbour, Changed, ScanOrder;
    var env := OneSided(topK);
    GoodWork(env, db);
    ScanOrderIsChanged(db);
    var p :| p in ScanOrder(db) && NeedsPair(env, db, p, k);
    var q :| IsNeighbour(env, db.documents.Keys, p, q) && k == KeyOf(p, q);
    if p != "a" { NoOtherNeighbour(topK, db.documents.Keys, p, q); }
    NeighboursOfA(db.documents.Keys, topK, q);
    assert q == "b" || q == "c";
  }

  // ---- two runs from nothing ----

  /** Nothing analysed and nothing judged yet. */
  function Nothing(docs: map<Path, Hash>): Db { Db(docs, map[], map[]) }

  ghost function OneRun(topK: nat, docs: map<Path, Hash>): Db { Run(OneSided(topK), Nothing(docs)).db }

  ghost function TwoRuns(topK: nat, docs: map<Path, Hash>): Db { Run(OneSided(topK), OneRun(topK, docs)).db }

  lemma QueueOfA(topK: nat, db: Db)
    requires topK >= 1
    ensures |Queue(OneSided(topK), db)| <= 2
  {
    hide WorkOf, Prune, OneSided;
    var work := WorkOf(OneSided(topK), Prune(db));
    KeyOrderCount(work);
    forall k | k in work
      ensures k in {("a", "b"), ("a", "c")}
    {
      WorkIsOfA(topK, Prune(db), k);
    }
    SmallerSet(work.Keys, {("a", "b"), ("a", "c")});
  }

  function Always(topK: nat): Envs { (_: nat) => OneSided(topK) }

  ghost function States(topK: nat, docs: map<Path, Hash>): seq<Db> {
    [Nothing(docs), OneRun(topK, docs), TwoRuns(topK, docs)]
  }

  lemma TwoRunsFollow(topK: nat, docs: map<Path, Hash>)
    ensures Runs(Always(topK), States(topK, docs)) && Capacity(Always(topK), 2) == 2
  {
    hide Run, Good;
    OneSidedIsGood(topK);
    forall i: nat
      ensures GoodAt(Always(topK), i)
    {
    }
    CapacityStep(Always(topK), 0);
    CapacityStep(Always(topK), 1);
  }

  /** Two runs analyse everything. */
  lemma TwoRunsRest(topK: nat, docs: map<Path, Hash>, p: Path)
    requires topK >= 1 && p in docs
    ensures TwoRuns(topK, docs).documents == docs && UpToDate(TwoRuns(topK, docs)) && Analysed(TwoRuns(topK, docs), p)
  {
    hide Run, WorkOf, Prune, UpToDate, Queue, Runs, Capacity, OneSided;
    var states, s2 := States(topK, docs), TwoRuns(topK, docs);
    NothingOutdated(docs);
    QueueOfA(topK, Nothing(docs));
    TwoRunsFollow(topK, docs);
    QuietAfterCapacity(Always(topK), states, 1);
    QueueAlong(Always(topK), states, 2);
    PruneRows(s2);
    RunDocuments(OneSided(topK), Nothing(docs));
    RunDocuments(OneSided(topK), OneRun(topK, docs));
    assert p !in Changed(s2);
  }

  lemma NothingOutdated(docs: map<Path, Hash>)
    ensures UpToDate(Nothing(docs))
  {
  }

  lemma RunDocuments(env: Env, db: Db)
    ensures Run(env, db).db.documents == db.documents
  {
  }

  /** Two runs write no row but for documents "a" lists. */
  lemma NoRow(topK: nat, docs: map<Path, Hash>, q: Path)
    requires topK >= 1 && (q == "b" ==> q !in docs) && (q == "c" ==> topK == 1 && "b" in docs)
    ensures ("a", q) !in TwoRuns(topK, docs).pairs
  {
    hide Run, Prune, OneSided;
    var s0, s1 := Nothing(docs), OneRun(topK, docs);
    RunDocuments(OneSided(topK), s0);
    if ("a", q) in TwoRuns(topK, docs).pairs {
      RowWritten(topK, s1, q);
      RowWritten(topK, s0, q);
    }
  }

  lemma RowWritten(topK: nat, db: Db, q: Path)
    requires ("a", q) in Run(OneSided(topK), db).db.pairs
    requires topK >= 1 && (q == "b" ==> q !in db.documents) && (q == "c" ==> topK == 1 && "b" in db.documents)
    ensures ("a", q) in db.pairs
  {
    hide Run, WorkOf, Prune, OneSided;
    PruneRows(db);
    if ("a", q) in WorkOf(OneSided(topK), Prune(db)) { WorkIsOfA(topK, Prune(db), ("a", q)); }
    RowWasThere(OneSided(topK), db, ("a", q));
  }

  lemma RowWasThere(env: Env, db: Db, k: PairKey)
    requires k in Run(env, db).db.pairs && k !in WorkOf(env, Prune(db))
    ensures k in db.pairs
  {
    hide WorkOf, DbAfter;
    RunIsAfter(env, db);
    if k in Evaluated(env, Prune(db)).evaluated { EvaluatedInWork(env, Prune(db), k); }
    RowKept(env, Prune(db), k);
  }

  // ---- histories in which an event breaks the invariant ----

  ghost function Twice(env: Env): seq<Event> { [Ran(env), Ran(env)] }

  lemma ReplayTwice(topK: nat, docs: map<Path, Hash>)
    ensures Replay(Nothing(docs), Twice(OneSided(topK))) == TwoRuns(topK, docs)
    ensures History(OneSided(topK), Nothing(docs), Twice(OneSided(topK)))
    ensures Inv(OneSided(topK), TwoRuns(topK, docs))
  {
    hide Run, Inv;
    var es := Twice(OneSided(topK));
    assert es[..1][..0] == [] && es[..1] == [es[0]];
    ReachableInv(OneSided(topK), Nothing(docs), es);
  }

  lemma ReplaySnoc(db: Db, es: seq<Event>, e: Event)
    ensures Replay(db, es + [e]) == Apply(Replay(db, es), e)
  {
    assert (es + [e])[..|es|] == es;
  }

  const ABC: map<Path, Hash> := map["a" := "1", "b" := "1", "c" := "1"]

  const AC: map<Path, Hash> := map["a" := "1", "c" := "1"]

  /** "a" is analysed but lists a document it shares no row with. */
  lemma NotCovered(topK: nat, db: Db, q: Path)
    requires topK >= 1 && Analysed(db, "a") && ("a", q) !in db.pairs
    requires q in db.documents && (q == "b" || (q == "c" && "b" !in db.documents))
    ensures !Inv(OneSided(topK), db)
  {
    NeighboursOfA(db.documents.Keys, topK, q);
    assert KeyOf("a", q) == ("a", q);
    assert !Covered(db, "a", q);
  }

  /** Two runs, then "b" is removed: "c" takes its place in the list of "a", which is not rescanned. */
  lemma RemovalBreaksInv()
    ensures var store, es := OneSided(1), Twice(OneSided(1));
      && History(store, Nothing(ABC), es) && Inv(store, Replay(Nothing(ABC), es))
      && !Inv(store, Replay(Nothing(ABC), es + [Removed("b")]))
  {
    hide Run, Inv, OneSided;
    var db := TwoRuns(1, ABC);
    ReplayTwice(1, ABC);
    ReplaySnoc(Nothing(ABC), Twice(OneSided(1)), Removed("b"));
    TwoRunsRest(1, ABC, "a");
    NoRow(1, ABC, "c");
    NotCovered(1, Apply(db, Removed("b")), "c");
  }

  /** Two runs, then "b" is added: it enters the list of "a", which is not rescanned. */
  lemma AdditionBreaksInv()
    ensures var store, es := OneSided(1), Twice(OneSided(1));
      && History(store, Nothing(AC), es) && Inv(store, Replay(Nothing(AC), es))
      && !Inv(store, Replay(Nothing(AC), es + [Upserted("b", "1")]))
  {
    hide Run, Inv, OneSided;
    var db := TwoRuns(1, AC);
    ReplayTwice(1, AC);
    ReplaySnoc(Nothing(AC), Twice(OneSided(1)), Upserted("b", "1"));
    TwoRunsRest(1, AC, "a");
    NoRow(1, AC, "b");
    NotCovered(1, Apply(db, Upserted("b", "1")), "b");
  }

  // ---- content given back ----

  /** Everything analysed at "1", then "a" edited. */
  ghost function AfterEdit(): Db { Apply(TwoRuns(2, ABC), Upserted("a", "2")) }

  lemma EditedRows(q: Path)
    requires ("a", q) in Prune(AfterEdit()).pairs && (q == "b" || q == "c")
    ensures Prune(AfterEdit()).pairs[("a", q)].hashA == "1"
  {
    hide Run;
    TwoRunsRest(2, ABC, "a");
    assert UpToDateAt(TwoRuns(2, ABC), ("a", q));
  }

  lemma EditedState()
    ensures var db := Prune(AfterEdit());
      && db.documents == map["a" := "2", "b" := "1", "c" := "1"]
      && Changed(db) == {"a"} && Lookup(db.analyzed, "a") == Some("1")
  {
    hide Run;
    TwoRunsRest(2, ABC, "a");
    TwoRunsRest(2, ABC, "b");
    TwoRunsRest(2, ABC, "c");
  }

  /** Both of its pairs wait again. */
  lemma BothWait(q: Path)
    requires q == "b" || q == "c"
    ensures NeedsPair(OneSided(2), Prune(AfterEdit()), "a", ("a", q))
    ensures ("a", q) in WorkOf(OneSided(2), Prune(AfterEdit()))
  {
    hide Prune, AfterEdit, WorkOf, OneSided, IsNeighbour, ScanOrder, Changed;
    var env, db := OneSided(2), Prune(AfterEdit());
    EditedState();
    NeighboursOfA(db.documents.Keys, 2, q);
    assert KeyOf("a", q) == ("a", q);
    if ("a", q) in db.pairs { EditedRows(q); }
    OneSidedIsGood(2);
    GoodWork(env, db);
    ScanOrderIsChanged(db);
  }

  lemma OneSidedIsGood(topK: nat)
    ensures Good(OneSided(topK)) && OneSided(topK).params.maxPairs == 1
  {
  }

  /** A run evaluates one of the two only. */
  lemma OneIsTaken() returns (done: Path, left: Path)
    ensures (done == "b" && left == "c") || (done == "c" && left == "b")
    ensures var ev := Evaluated(OneSided(2), Prune(AfterEdit()));
      ("a", done) in ev.evaluated && ("a", left) !in ev.evaluated
  {
    hide Prune, AfterEdit, WorkOf, OneSided, Evaluated;
    var env, db := OneSided(2), Prune(AfterEdit());
    BothWait("b");
    BothWait("c");
    OneSidedIsGood(2);
    GoodRun(env, db);
    KeyOrderCount(WorkOf(env, db));
    assert ("a", "b") in WorkOf(env, db).Keys && |WorkOf(env, db).Keys| > 0;
    var k := Evaluated(env, db).evaluated[0];
    assert k in Evaluated(env, db).evaluated;
    EvaluatedInWork(env, db, k);
    WorkIsOfA(2, db, k);
    done := k.1;
    left := if done == "b" then "c" else "b";
    assert k == ("a", done);
  }

  /** So "a" keeps its old mark beside a row for its new content. */
  lemma HalfWay() returns (q: Path)
    ensures q == "b" || q == "c"
    ensures var db := Run(OneSided(2), AfterEdit()).db;
      && db.documents.Keys == {"a", "b", "c"} && Lookup(db.analyzed, "a") == Some("1")
      && ("a", q) in db.pairs && db.pairs[("a", q)].hashA == "2"
  {
    hide Prune, AfterEdit, WorkOf, OneSided, Evaluated, Done;
    var env, db := OneSided(2), Prune(AfterEdit());
    var left;
    q, left := OneIsTaken();
    EditedState();
    BothWait(left);
    DoneKnown(env, db);
    Members(Done(env, db));
    if p :| p in Done(env, db) { DoneHasNeed(env, db, p); }
    EvaluatedRowIsCurrent(env, db, ("a", q));
  }

  ghost function EditAndRun(): seq<Event> { Twice(OneSided(2)) + [Upserted("a", "2")] + [Ran(OneSided(2))] }

  lemma EditHistory()
    ensures History(OneSided(2), Nothing(ABC), EditAndRun())
    ensures Replay(Nothing(ABC), EditAndRun()) == Run(OneSided(2), AfterEdit()).db
  {
    hide Run, Inv, OneSided, StoreOk;
    var store, es := OneSided(2), Twice(OneSided(2));
    ReplayTwice(2, ABC);
    ReplaySnoc(Nothing(ABC), es, Upserted("a", "2"));
    ReplaySnoc(Nothing(ABC), es + [Upserted("a", "2")], Ran(store));
    TwoRunsRest(2, ABC, "a");
    EditIsSafe(store, TwoRuns(2, ABC), "a", "2");
    forall i | 0 <= i < 4
      ensures Allowed(store, Replay(Nothing(ABC), EditAndRun()[..i]), EditAndRun()[i])
    {
      assert i <= 2 ==> EditAndRun()[..i] == es[..i];
      assert es[..2] == es;
    }
  }

  /** Two runs, an edit, one run that gets to one of two pairs, and the edit taken back: "a" counts
      as analysed although a row of its own holds the hash in between. */
  lemma ReversionBreaksInv()
    ensures History(OneSided(2), Nothing(ABC), EditAndRun())
    ensures Inv(OneSided(2), Replay(Nothing(ABC), EditAndRun()))
    ensures !Inv(OneSided(2), Replay(Nothing(ABC), EditAndRun() + [Upserted("a", "1")]))
  {
    hide Run, OneSided, AfterEdit, EditAndRun, History, IsNeighbour;
    var q := HalfWay();
    EditHistory();
    ReachableInv(OneSided(2), Nothing(ABC), EditAndRun());
    ReplaySnoc(Nothing(ABC), EditAndRun(), Upserted("a", "1"));
    var db := Replay(Nothing(ABC), EditAndRun() + [Upserted("a", "1")]);
    NeighboursOfA(db.documents.Keys, 2, q);
    assert KeyOf("a", q) == ("a", q);
    assert !Covered(db, "a", q);
  }

  // ---- an outdated row ----

  const AB: map<Path, Hash> := map["a" := "1", "b" := "1"]

  /** Both analysed at "1", then "b" edited. */
  ghost function EditedNeighbour(): Db { Apply(TwoRuns(1, AB), Upserted("b", "2")) }

  lemma EditedNeighbourIs()
    ensures var db, k := Prune(EditedNeighbour()), ("a", "b");
      && db.documents == map["a" := "1", "b" := "2"] && Changed(db) == {"b"} && Analysed(db, "a")
      && k in db.pairs && db.pairs[k].hashB == "1"
  {
    hide Run, Inv, IsNeighbour, OneSided;
    var db, k := TwoRuns(1, AB), ("a", "b");
    TwoRunsRest(1, AB, "a");
    TwoRunsRest(1, AB, "b");
    ReplayTwice(1, AB);
    NeighboursOfA(db.documents.Keys, 1, "b");
    assert KeyOf("a", "b") == k;
    assert Covered(db, "a", "b") by { CoveredBy(OneSided(1), db, "a", "b"); }
    assert UpToDateAt(db, k);
  }

  lemma CoveredBy(env: Env, db: Db, p: Path, q: Path)
    requires Inv(env, db) && Analysed(db, p) && IsNeighbour(env, db.documents.Keys, p, q)
    ensures Covered(db, p, q)
  {
  }

  /** "a" is analysed, so nothing is asked for. */
  lemma NoWorkYet()
    ensures WorkOf(OneSided(1), Prune(EditedNeighbour())) == map[]
  {
    hide WorkOf, OneSided, Prune, EditedNeighbour, Changed;
    var work := WorkOf(OneSided(1), Prune(EditedNeighbour()));
    EditedNeighbourIs();
    forall k
      ensures k !in work
    {
      if k in work { WorkIsOfA(1, Prune(EditedNeighbour()), k); }
    }
  }

  lemma EvaluatedNone(k: PairKey)
    ensures k !in Evaluated(OneSided(1), Prune(EditedNeighbour())).evaluated
  {
    hide *;
    NoWorkYet();
    if k in Evaluated(OneSided(1), Prune(EditedNeighbour())).evaluated {
      EvaluatedInWork(OneSided(1), Prune(EditedNeighbour()), k);
    }
  }

  lemma NextIsAsked()
    ensures Reopened(OneSided(1), Prune(EditedNeighbour()), "a")
    ensures NeedsPair(OneSided(1), Prune(EditedNeighbour()), "a", ("a", "b"))
  {
    hide WorkOf, Evaluated, Done, IsNeighbour, OneSided, DropStale, Prune, EditedNeighbour, Changed;
    var env, db, k := OneSided(1), Prune(EditedNeighbour()), ("a", "b");
    OneSidedIsGood(1);
    EditedNeighbourIs();
    NoWorkYet();
    EvaluatedNone(k);
    AllDone(env, db, "b");
    DoneKnown(env, db);
    assert KeyOf("a", "b") == k;
    NeighboursOfA(db.documents.Keys, 1, "b");
    DropStaleReopens(Unwritten(env, db), Done(env, db), k, "b");
    DropStaleMarks(Unwritten(env, db), Done(env, db), "a");
  }

  /** Pruning has nothing left to do after a run. */
  lemma PruneAgain(env: Env, db: Db)
    ensures Prune(Run(env, db).db) == Run(env, db).db
  {
    hide Evaluated, Done, DropStale;
    var start, r := Prune(db), Run(env, db).db;
    DoneKnown(env, start);
    PruneRows(db);
    forall p | p in r.analyzed && db.documents != map[]
      ensures p in db.documents
    {
      DropStaleMarks(Marked(env, start), Done(env, start), p);
    }
    forall k | k in r.pairs && db.documents != map[]
      ensures KnownKey(r, k)
    {
      RowsAfter(env, start, k);
      EvaluatedRowIsCurrent(env, start, k);
    }
    if db.documents != map[] { PruneIdle(r); }
  }

  /** Two runs, then "b" is edited: the next run has nothing to evaluate, and yet the one after it
      has, because dropping the outdated row reopens "a". */
  lemma OutdatedRowsReopen()
    ensures var store, es := OneSided(1), Twice(OneSided(1)) + [Upserted("b", "2")];
      var db := Replay(Nothing(AB), es);
      && Good(store) && History(store, Nothing(AB), es)
      && Queue(store, db) == [] && ("a", "b") in Queue(store, Run(store, db).db)
  {
    hide *;
    var store, db, k := OneSided(1), EditedNeighbour(), ("a", "b");
    OneSidedIsGood(1);
    EditNeighbourHistory();
    NoWorkYet();
    NoQueue(store, db);
    WorkReopens();
    RunIsAfter(store, db);
    PruneAgain(store, db);
    InQueue(store, Run(store, db).db, k);
  }

  lemma NoQueue(env: Env, db: Db)
    requires WorkOf(env, Prune(db)) == map[]
    ensures Queue(env, db) == []
  {
    hide WorkOf;
    KeyOrderCount(WorkOf(env, Prune(db)));
  }

  lemma WorkReopens()
    ensures ("a", "b") in WorkOf(OneSided(1), DbAfter(OneSided(1), Prune(EditedNeighbour())))
  {
    hide *;
    var env, db := OneSided(1), Prune(EditedNeighbour());
    OneSidedIsGood(1);
    NextIsAsked();
    EvaluatedNone(("a", "b"));
    NextPending(env, db, ("a", "b"));
    GoodWork(env, DbAfter(env, db));
  }

  lemma EditNeighbourHistory()
    ensures var es := Twice(OneSided(1)) + [Upserted("b", "2")];
      History(OneSided(1), Nothing(AB), es) && Replay(Nothing(AB), es) == EditedNeighbour()
  {
    hide Run, Inv, OneSided, StoreOk;
    var store, es := OneSided(1), Twice(OneSided(1));
    ReplayTwice(1, AB);
    ReplaySnoc(Nothing(AB), es, Upserted("b", "2"));
    TwoRunsRest(1, AB, "b");
    EditIsSafe(store, TwoRuns(1, AB), "b", "2");
    forall i | 0 <= i < 3
      ensures Allowed(store, Replay(Nothing(AB), (es + [Upserted("b", "2")])[..i]), (es + [Upserted("b", "2")])[i])
    {
      assert i <= 2 ==> (es + [Upserted("b", "2")])[..i] == es[..i];
      assert es[..2] == es;
    }
  }
}
