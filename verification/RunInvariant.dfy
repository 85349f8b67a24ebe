/** Safety over whole histories: runs and edits in any order (src/contradictions.rs). */
module RunInvariant {
  import opened Options
  import opened Contradictions
  import Top = Neighbours
  import opened RunLaws

  function HashOf(k: PairKey, r: Row, p: Path): Hash { if k.0 == p then r.hashA else r.hashB }

  /** The pair of an analysed document and a neighbour has a row for the document's current
      hash; if the row is outdated for the neighbour, the neighbour still awaits analysis. */
  ghost predicate Covered(db: Db, p: Path, q: Path) {
    var k := KeyOf(p, q);
    && KnownKey(db, k) && k in db.pairs
    && HashOf(k, db.pairs[k], p) == db.documents[p]
    && (HashOf(k, db.pairs[k], q) == db.documents[q] || !Analysed(db, q))
  }

  ghost predicate Inv(env: Env, db: Db) {
    forall p, q :: Analysed(db, p) && IsNeighbour(env, db.documents.Keys, p, q) ==> Covered(db, p, q)
  }

  lemma CurrentIsCovered(db: Db, p: Path, q: Path)
    requires CurrentRow(db, KeyOf(p, q))
    ensures Covered(db, p, q)
  {
    KeyOfFacts(p, q);
  }

  lemma PruneKeepsInv(env: Env, db: Db)
    requires Inv(env, db)
    ensures Inv(env, Prune(db))
  {
    var r := Prune(db);
    forall p, q | Analysed(r, p) && IsNeighbour(env, r.documents.Keys, p, q)
      ensures Covered(r, p, q)
    {
      assert Covered(db, p, q);
    }
  }

  /** A pair covered before the run, whose document was not finished by it, stays covered. */
  lemma StaysCovered(env: Env, db: Db, p: Path, q: Path)
    requires p !in Done(env, db) && p != q && Covered(db, p, q)
    requires Analysed(DbAfter(env, db), p)
    ensures Covered(DbAfter(env, db), p, q)
  {
    hide Evaluated, Done, DropStale;
    var k, done, marked := KeyOf(p, q), Done(env, db), Marked(env, db);
    KeyOfFacts(p, q);
    EvaluatedRowIsCurrent(env, db, k);
    RowsAfter(env, db, k);
    if CurrentRow(marked, k) {
      CurrentIsCovered(DbAfter(env, db), p, q);
    } else {
      assert marked.pairs[k] == db.pairs[k] && StaleAt(marked, k, q);
      if q in done {
        DropStaleReopens(marked, done, k, q);
        assert false;
      }
      assert forall d :: d in done ==> !StaleAt(marked, k, d);
      if Analysed(DbAfter(env, db), q) { NewMarksAreDone(env, db, q); }
    }
  }

  lemma RunKeepsInv(env: Env, db: Db)
    requires Inv(env, db)
    ensures Inv(env, Run(env, db).db)
  {
    PruneKeepsInv(env, db);
    var start := Prune(db);
    var r := DbAfter(env, start);
    forall p, q | Analysed(r, p) && IsNeighbour(env, r.documents.Keys, p, q)
      ensures Covered(r, p, q)
    {
      NeighbourKnown(env, start, p, q);
      if p in Done(env, start) {
        DoneIsCovered(env, start, p, q);
        CurrentIsCovered(r, p, q);
      } else {
        NewMarksAreDone(env, start, p);
        StaysCovered(env, start, p, q);
      }
    }
  }

  // ---- histories ----

  /** A run under some environment; a document added, or stored with other content; one removed. */
  datatype Event = Ran(env: Env) | Upserted(path: Path, hash: Hash) | Removed(path: Path)

  /** The stored row of `x` and `y` holds `hash` for `x`. */
  ghost predicate Carries(db: Db, x: Path, y: Path, hash: Hash) {
    KeyOf(x, y) in db.pairs && HashOf(KeyOf(x, y), db.pairs[KeyOf(x, y)], x) == hash
  }

  ghost predicate CarriesCurrent(db: Db, x: Path, y: Path) {
    x in db.documents && Carries(db, x, y, db.documents[x])
  }

  /** The document was last analysed with this very content. */
  ghost predicate Returns(db: Db, path: Path, hash: Hash) { Lookup(db.analyzed, path) == Some(hash) }

  /** Content a document was last analysed with comes back only with the rows of that analysis in
      place; and no analysed document lists it without a row of the two. */
  ghost predicate StoreOk(env: Env, db: Db, path: Path, hash: Hash) {
    var known := db.documents.Keys + {path};
    && (Returns(db, path, hash) ==>
         forall q :: IsNeighbour(env, known, path, q) ==>
           Carries(db, path, q, hash) && (CarriesCurrent(db, q, path) || !Analysed(db, q)))
    && (forall p :: p != path && Analysed(db, p) && IsNeighbour(env, known, p, path) ==>
         CarriesCurrent(db, p, path) && (Carries(db, path, p, hash) || !Returns(db, path, hash)))
  }

  /** Every neighbour an analysed document gains by the removal is covered already. */
  ghost predicate RemoveOk(env: Env, db: Db, path: Path) {
    forall p, q ::
      && p != path && Analysed(db, p)
      && IsNeighbour(env, db.documents.Keys - {path}, p, q) && !IsNeighbour(env, db.documents.Keys, p, q)
      ==> Covered(db, p, q)
  }

  ghost predicate Allowed(store: Env, db: Db, e: Event) {
    match e
    case Ran(env) => SameStore(env, store)
    case Upserted(path, hash) => StoreOk(store, db, path, hash)
    case Removed(path) => RemoveOk(store, db, path)
  }

  /** A removal takes the document's mark and pairs along. */
  ghost function Apply(db: Db, e: Event): Db {
    match e
    case Ran(env) => Run(env, db).db
    case Upserted(path, hash) => db.(documents := db.documents[path := hash])
    case Removed(path) =>
      Db(db.documents - {path}, db.analyzed - {path},
         map k | k in db.pairs && k.0 != path && k.1 != path :: db.pairs[k])
  }

  ghost function Replay(db: Db, es: seq<Event>): Db {
    if es == [] then db else Apply(Replay(db, es[..|es| - 1]), es[|es| - 1])
  }

  ghost predicate History(store: Env, db: Db, es: seq<Event>) {
    forall i :: 0 <= i < |es| ==> Allowed(store, Replay(db, es[..i]), es[i])
  }

  lemma SameStoreInv(a: Env, b: Env, db: Db)
    requires SameStore(a, b) && Inv(a, db)
    ensures Inv(b, db)
  {
    forall p, q | Analysed(db, p) && IsNeighbour(b, db.documents.Keys, p, q)
      ensures Covered(db, p, q)
    {
      SameNeighbours(a, b, db.documents.Keys, p, q);
    }
  }

  lemma NeighbourDiffers(env: Env, known: set<Path>, p: Path, q: Path)
    requires IsNeighbour(env, known, p, q)
    ensures q in known && p != q
  {
    TopKKnown(env.neighbours(p).value, p, known, env.params.topK, env.params.minSimilarity);
  }

  lemma NeighbourIsListed(env: Env, known: set<Path>, p: Path, q: Path)
    requires env.neighbours(p).Some?
    ensures IsNeighbour(env, known, p, q) <==> Top.Listed(Neighbours(env, known, p, env.neighbours(p).value), q)
  {
    hide Neighbours;
    var ranked := Neighbours(env, known, p, env.neighbours(p).value);
    if i: nat :| i < |ranked| && ranked[i].0 == q { assert IsNeighbour(env, known, p, q); }
  }

  lemma NoneGainedByStoring(env: Env, known: set<Path>, extra: Path, p: Path, q: Path)
    requires q != extra && IsNeighbour(env, known + {extra}, p, q)
    ensures IsNeighbour(env, known, p, q)
  {
    hide IsNeighbour;
    Listing(env, known + {extra}, p, q);
    NeighbourIsListed(env, known + {extra}, p, q);
    NeighbourIsListed(env, known, p, q);
    Top.NoneListedByAdding(env.neighbours(p).value, p, known, extra, env.params.topK, env.params.minSimilarity, q);
  }

  lemma Listing(env: Env, known: set<Path>, p: Path, q: Path)
    requires IsNeighbour(env, known, p, q)
    ensures env.neighbours(p).Some?
  {
  }

  /** Storing a document keeps the invariant exactly under `StoreOk`. */
  lemma StoreKeepsInv(env: Env, db: Db, path: Path, hash: Hash)
    requires Inv(env, db)
    ensures Inv(env, Apply(db, Upserted(path, hash))) <==> StoreOk(env, db, path, hash)
  {
    hide IsNeighbour;
    var r, known := Apply(db, Upserted(path, hash)), db.documents.Keys + {path};
    assert r.documents.Keys == known;
    forall p, q | Analysed(r, p) && IsNeighbour(env, known, p, q)
      ensures Covered(r, p, q) <==> StoredFits(db, path, hash, p, q)
    {
      NeighbourDiffers(env, known, p, q);
      if q != path { NoneGainedByStoring(env, db.documents.Keys, path, p, q); }
      StoredPair(env, db, path, hash, p, q);
    }
  }

  ghost predicate StoredFits(db: Db, path: Path, hash: Hash, p: Path, q: Path) {
    && (p == path ==> Carries(db, path, q, hash) && (CarriesCurrent(db, q, path) || !Analysed(db, q)))
    && (q == path ==> CarriesCurrent(db, p, path) && (Carries(db, path, p, hash) || !Returns(db, path, hash)))
  }

  lemma StoredPair(env: Env, db: Db, path: Path, hash: Hash, p: Path, q: Path)
    requires var r := Apply(db, Upserted(path, hash));
      && Analysed(r, p) && q in r.documents && p != q
      && (p != path && q != path ==> Covered(db, p, q))
    ensures Covered(Apply(db, Upserted(path, hash)), p, q) <==> StoredFits(db, path, hash, p, q)
  {
    KeyOfFacts(p, q);
  }

  /** A document given content other than it was last analysed with never breaks the invariant. */
  lemma EditIsSafe(env: Env, db: Db, path: Path, hash: Hash)
    requires Inv(env, db) && path in db.documents && !Returns(db, path, hash)
    ensures StoreOk(env, db, path, hash)
  {
    hide IsNeighbour;
    assert db.documents.Keys + {path} == db.documents.Keys;
    forall p | p != path && Analysed(db, p) && IsNeighbour(env, db.documents.Keys, p, path)
      ensures CarriesCurrent(db, p, path)
    {
      assert Covered(db, p, path);
    }
  }

  /** A new document, with no mark and no rows, is safe exactly if no analysed document lists it. */
  lemma AddIsSafeIff(env: Env, db: Db, path: Path, hash: Hash)
    requires path !in db.analyzed && forall k :: k in db.pairs ==> k.0 != path && k.1 != path
    ensures StoreOk(env, db, path, hash)
            <==> forall p :: p != path && Analysed(db, p) ==> !IsNeighbour(env, db.documents.Keys + {path}, p, path)
  {
    hide IsNeighbour;
    forall p
      ensures !CarriesCurrent(db, p, path)
    {
      KeyOfFacts(p, path);
    }
  }

  /** Removing a document leaves nothing that mentions it, and everything else as it was. */
  lemma RemovedIsGone(db: Db, path: Path, p: Path, k: PairKey)
    ensures var r := Apply(db, Removed(path));
      && Lookup(r.documents, p) == (if p == path then None else Lookup(db.documents, p))
      && Lookup(r.analyzed, p) == (if p == path then None else Lookup(db.analyzed, p))
      && Lookup(r.pairs, k) == (if path == k.0 || path == k.1 then None else Lookup(db.pairs, k))
  {
  }

  /** Removing a document keeps the invariant exactly under `RemoveOk`. */
  lemma RemoveKeepsInv(env: Env, db: Db, path: Path)
    requires Inv(env, db)
    ensures Inv(env, Apply(db, Removed(path))) <==> RemoveOk(env, db, path)
  {
    hide IsNeighbour;
    var r, known := Apply(db, Removed(path)), db.documents.Keys - {path};
    assert r.documents.Keys == known;
    forall p, q | IsNeighbour(env, known, p, q)
      ensures Analysed(r, p) <==> p != path && Analysed(db, p)
      ensures p != path ==> (Covered(r, p, q) <==> Covered(db, p, q))
    {
      NeighbourDiffers(env, known, p, q);
      KeyOfFacts(p, q);
    }
    if Inv(env, r) {
      forall p, q | p != path && Analysed(db, p) && IsNeighbour(env, known, p, q)
        ensures Covered(db, p, q)
      {
        assert Covered(r, p, q);
      }
    }
  }

  lemma NothingAnalysed(env: Env, db: Db)
    requires db.analyzed == map[]
    ensures Inv(env, db)
  {
  }

  /** In every state reachable from one with nothing analysed, by runs, stores and removals in any
      order, every analysed document is covered for all its neighbours; the conditions on stores
      and removals are as weak as can be. */
  lemma {:induction false} ReachableInv(store: Env, db: Db, es: seq<Event>)
    requires db.analyzed == map[] && History(store, db, es)
    ensures Inv(store, Replay(db, es))
  {
    hide Inv, Run, StoreOk, RemoveOk;
    if es == [] {
      NothingAnalysed(store, db);
    } else {
      var n := |es| - 1;
      assert forall i :: 0 <= i < n ==> es[..n][..i] == es[..i];
      ReachableInv(store, db, es[..n]);
      var before, e := Replay(db, es[..n]), es[n];
      match e
      case Ran(env) =>
        SameStoreInv(store, env, before);
        RunKeepsInv(env, before);
        SameStoreInv(env, store, Run(env, before).db);
      case Upserted(path, hash) => StoreKeepsInv(store, before, path, hash);
      case Removed(path) => RemoveKeepsInv(store, before, path);
    }
  }
}
