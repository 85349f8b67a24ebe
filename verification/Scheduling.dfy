/** The bounded concurrent embedding protocol (src/embed.rs): a queue of batches, a set of batches
    in flight, a slot per batch; whichever batch in flight finishes next is free. */
module Scheduling {
  import opened Options
  import opened Ordering

  type Vector = seq<real>

  /** How a batch's task ends. */
  datatype Outcome = Embedded(vectors: seq<Vector>) | Refused(error: string) | Panicked

  datatype EmbedError = BatchFailed(error: string) | TaskPanicked

  /** The batches, how many may be in flight, and how each task ends. */
  datatype Job = Job(batches: seq<seq<string>>, concurrency: nat, outcome: nat -> Outcome)

  /** `spawned` batches have left the queue; `reported` are the batch sizes told to the caller. */
  datatype Progress = Progress(
    spawned: nat, inFlight: set<nat>, slots: seq<Option<seq<Vector>>>, reported: seq<nat>, failed: Option<EmbedError>)

  function Concat<T>(ss: seq<seq<T>>): seq<T> { if ss == [] then [] else Concat(ss[..|ss| - 1]) + ss[|ss| - 1] }

  function Sum(ns: seq<nat>): nat { if ns == [] then 0 else Sum(ns[..|ns| - 1]) + ns[|ns| - 1] }

  function Limit(job: Job): nat { if job.concurrency == 0 then 1 else job.concurrency }

  /** The first `n` batches. */
  function UpTo(n: nat): (s: set<nat>)
    ensures |s| == n && forall b: nat :: b in s <==> b < n
  {
    if n == 0 then {} else UpTo(n - 1) + {n - 1}
  }

  function Begin(job: Job): Progress {
    var first := Min(Limit(job), |job.batches|);
    Progress(first, UpTo(first), seq(|job.batches|, _ => None), [], None)
  }

  /** Batch `b` finishes; its slot is filled and the next queued batch, if any, is spawned. */
  function Finish(job: Job, p: Progress, b: nat): Progress {
    if p.failed.Some? || b !in p.inFlight || b >= |p.slots| || b >= |job.batches| then p
    else match job.outcome(b)
      case Panicked => p.(inFlight := p.inFlight - {b}, failed := Some(TaskPanicked))
      case Refused(error) => p.(inFlight := p.inFlight - {b}, failed := Some(BatchFailed(error)))
      case Embedded(vectors) =>
        var left := p.inFlight - {b};
        Progress(
          if p.spawned < |job.batches| then p.spawned + 1 else p.spawned,
          if p.spawned < |job.batches| then left + {p.spawned} else left,
          p.slots[b := Some(vectors)], p.reported + [|job.batches[b]|], None)
  }

  /** The progress after the batches of `order` finished, in that order. */
  function Replay(job: Job, order: seq<nat>): Progress {
    if order == [] then Begin(job) else Finish(job, Replay(job, order[..|order| - 1]), order[|order| - 1])
  }

  predicate FinishesAt(job: Job, order: seq<nat>, i: nat)
    requires i < |order|
  {
    Replay(job, order[..i]).failed.None? && order[i] in Replay(job, order[..i]).inFlight
  }

  /** Any completion order that can happen: each next batch is one in flight, none after a failure. */
  ghost predicate CanHappen(job: Job, order: seq<nat>) {
    forall i: nat :: i < |order| ==> FinishesAt(job, order, i)
  }

  /** What the loop keeps: batch by batch, waiting, in flight, or done into its own slot. */
  ghost predicate SlotOk(job: Job, p: Progress, done: set<nat>, b: nat)
    requires b < |p.slots|
  {
    && (b in done ==>
         b < p.spawned && b !in p.inFlight && job.outcome(b).Embedded? && p.slots[b] == Some(job.outcome(b).vectors))
    && (b !in done ==> p.slots[b] == None && (b < p.spawned ==> b in p.inFlight || p.failed.Some?))
  }

  ghost predicate Inv(job: Job, p: Progress, done: set<nat>) {
    && |p.slots| == |job.batches| && p.spawned <= |job.batches|
    && (forall b :: b in p.inFlight ==> b < p.spawned && b !in done)
    && (forall b :: b in done ==> b < p.spawned)
    && (forall b: nat :: b < |p.slots| ==> SlotOk(job, p, done, b))
    && |p.inFlight| <= Limit(job)
    && (p.failed.None? && p.spawned < |job.batches| ==> |p.inFlight| == Limit(job))
  }

  lemma BeginInv(job: Job)
    ensures Inv(job, Begin(job), {})
  {
  }

  /** The batches that finished with their vectors stored. */
  function Stored(job: Job, order: seq<nat>): set<nat> { set b | b in order && job.outcome(b).Embedded? }

  lemma StoredSnoc(job: Job, order: seq<nat>, b: nat)
    ensures Stored(job, order + [b]) == Stored(job, order) + (if job.outcome(b).Embedded? then {b} else {})
  {
  }

  lemma FinishInv(job: Job, p: Progress, done: set<nat>, b: nat)
    requires Inv(job, p, done) && p.failed.None? && b in p.inFlight
    ensures Inv(job, Finish(job, p, b), done + (if job.outcome(b).Embedded? then {b} else {}))
  {
    var p', done' := Finish(job, p, b), done + (if job.outcome(b).Embedded? then {b} else {});
    hide SlotOk;
    FinishSlots(job, p, done, b);
    FinishFlight(job, p, done, b);
  }

  lemma FinishSlots(job: Job, p: Progress, done: set<nat>, b: nat)
    requires Inv(job, p, done) && p.failed.None? && b in p.inFlight
    ensures var p', done' := Finish(job, p, b), done + (if job.outcome(b).Embedded? then {b} else {});
      |p'.slots| == |p.slots| && forall c: nat :: c < |p'.slots| ==> SlotOk(job, p', done', c)
  {
    var p', done' := Finish(job, p, b), done + (if job.outcome(b).Embedded? then {b} else {});
    forall c: nat | c < |p'.slots|
      ensures SlotOk(job, p', done', c)
    {
      assert SlotOk(job, p, done, c);
    }
  }

  lemma FinishFlight(job: Job, p: Progress, done: set<nat>, b: nat)
    requires Inv(job, p, done) && p.failed.None? && b in p.inFlight
    ensures var p' := Finish(job, p, b);
      && |p'.inFlight| <= Limit(job)
      && (p'.failed.None? && p'.spawned < |job.batches| ==> |p'.inFlight| == Limit(job))
  {
    hide SlotOk;
    var left := p.inFlight - {b};
    assert |left| == |p.inFlight| - 1;
    assert p.spawned !in left;
  }

  /** Every state of every completion order: never more batches in flight than allowed, exactly
      that many while any wait, each batch's vectors in its own slot and nowhere else. */
  lemma {:induction false} EveryState(job: Job, order: seq<nat>)
    requires CanHappen(job, order)
    ensures Inv(job, Replay(job, order), Stored(job, order))
  {
    hide Finish, Begin, Inv;
    if order == [] {
      BeginInv(job);
      assert Stored(job, order) == {};
    } else {
      var n := |order| - 1;
      CanHappenPrefix(job, order, n);
      EveryState(job, order[..n]);
      assert FinishesAt(job, order, n);
      FinishInv(job, Replay(job, order[..n]), Stored(job, order[..n]), order[n]);
      StoredSnoc(job, order[..n], order[n]);
      assert order == order[..n] + [order[n]];
    }
  }

  /** Never more requests in flight than the configured concurrency (one if that is zero), and exactly
      that many as long as nothing failed and batches still wait. */
  lemma InFlight(job: Job, order: seq<nat>)
    requires CanHappen(job, order)
    ensures var p := Replay(job, order);
      var busy := p.failed.None? && p.spawned < |job.batches|;
      && (job.concurrency >= 1 ==> |p.inFlight| <= job.concurrency && (busy ==> |p.inFlight| == job.concurrency))
      && (job.concurrency == 0 ==> |p.inFlight| <= 1 && (busy ==> |p.inFlight| == 1))
  {
    EveryState(job, order);
  }

  /** A batch that finished, well or not, is no longer in flight. */
  lemma FinishedIsDone(job: Job, order: seq<nat>, i: nat)
    requires CanHappen(job, order) && i < |order|
    ensures order[i] !in Replay(job, order).inFlight
  {
    hide Inv, Finish;
    var b, n := order[i], |order| - 1;
    if job.outcome(b).Embedded? {
      EveryState(job, order);
      DoneNotInFlight(job, order, b);
    } else {
      if i < n { FinishOnce(job, order, i, n); }
      assert FinishesAt(job, order, n);
      FinishesKnown(job, order, n);
      CanHappenPrefix(job, order, n);
      EveryState(job, order[..n]);
      FailedLeaves(job, Replay(job, order[..n]), Stored(job, order[..n]), b);
    }
  }

  lemma FailedLeaves(job: Job, p: Progress, done: set<nat>, b: nat)
    requires Inv(job, p, done) && p.failed.None? && b in p.inFlight && !job.outcome(b).Embedded?
    ensures b !in Finish(job, p, b).inFlight
  {
  }

  lemma DoneNotInFlight(job: Job, order: seq<nat>, b: nat)
    requires Inv(job, Replay(job, order), Stored(job, order)) && b in order && job.outcome(b).Embedded?
    ensures b !in Replay(job, order).inFlight
  {
  }

  /** No batch finishes twice, so no run is longer than there are batches. */
  lemma {:induction false} FinishOnce(job: Job, order: seq<nat>, i: nat, j: nat)
    requires CanHappen(job, order) && i < j < |order|
    ensures order[i] != order[j] && job.outcome(order[i]).Embedded?
  {
    CanHappenPrefix(job, order, j);
    EveryState(job, order[..j]);
    assert FinishesAt(job, order, j) && FinishesAt(job, order, i);
    NotFailed(job, order, i);
    assert order[..j][i] in Stored(job, order[..j]);
  }

  lemma {:induction false} CanHappenPrefix(job: Job, order: seq<nat>, n: nat)
    requires CanHappen(job, order) && n <= |order|
    ensures CanHappen(job, order[..n])
  {
    forall i: nat | i < n
      ensures FinishesAt(job, order[..n], i)
    {
      assert FinishesAt(job, order, i) && order[..n][..i] == order[..i];
    }
  }

  lemma {:induction false} NotFailed(job: Job, order: seq<nat>, i: nat)
    requires CanHappen(job, order) && i + 1 < |order|
    ensures job.outcome(order[i]).Embedded?
  {
    CanHappenPrefix(job, order, i);
    EveryState(job, order[..i]);
    assert FinishesAt(job, order, i) && FinishesAt(job, order, i + 1);
    assert order[..i + 1][..i] == order[..i];
  }

  // ---- the two ways a run ends ----

  /** Nothing is in flight and nothing failed. */
  predicate Completed(p: Progress) { p.failed.None? && p.inFlight == {} }

  function Vectors(o: Outcome): seq<Vector> { if o.Embedded? then o.vectors else [] }

  /** The per-batch results in input order. */
  function Results(job: Job): seq<seq<Vector>> { seq(|job.batches|, (b: nat) => Vectors(job.outcome(b))) }

  ghost predicate AllEmbedded(job: Job) { forall b: nat :: b < |job.batches| ==> job.outcome(b).Embedded? }

  function Unwrap(o: Option<seq<Vector>>): seq<Vector> { if o.Some? then o.value else [] }

  function Collected(slots: seq<Option<seq<Vector>>>): seq<Vector> {
    Concat(seq(|slots|, i requires 0 <= i < |slots| => Unwrap(slots[i])))
  }

  /** The loop cannot end with a batch unspawned or a slot empty. */
  lemma {:induction false} NoEmptySlot(job: Job, order: seq<nat>)
    requires CanHappen(job, order) && Completed(Replay(job, order))
    ensures var p := Replay(job, order);
      && p.spawned == |job.batches| && |p.slots| == |job.batches|
      && forall b: nat :: b < |p.slots| ==> p.slots[b] == Some(Vectors(job.outcome(b))) && job.outcome(b).Embedded?
  {
    EveryState(job, order);
    var p := Replay(job, order);
    forall b: nat | b < |p.slots|
      ensures p.slots[b] == Some(Vectors(job.outcome(b))) && job.outcome(b).Embedded?
    {
      assert SlotOk(job, p, Stored(job, order), b);
    }
  }

  /** Whatever order the batches finish in, the result is the per-batch results in input order. */
  lemma {:induction false} OrderDoesNotMatter(job: Job, order: seq<nat>)
    requires CanHappen(job, order) && Completed(Replay(job, order))
    ensures AllEmbedded(job) && Collected(Replay(job, order).slots) == Concat(Results(job))
  {
    hide CanHappen, Replay;
    var slots := Replay(job, order).slots;
    NoEmptySlot(job, order);
    assert seq(|slots|, i requires 0 <= i < |slots| => Unwrap(slots[i])) == Results(job);
  }

  /** A completed run has finished every batch exactly once. */
  lemma {:induction false} EachFinishesOnce(job: Job, order: seq<nat>)
    requires CanHappen(job, order) && Completed(Replay(job, order))
    ensures |order| == |job.batches| && forall b: nat :: b < |job.batches| ==> b in order
  {
    hide Replay, CanHappen;
    NoEmptySlot(job, order);
    EveryState(job, order);
    forall b: nat | b < |job.batches|
      ensures b in order
    {
      assert SlotOk(job, Replay(job, order), Stored(job, order), b);
    }
    forall i, j | 0 <= i < j < |order|
      ensures order[i] != order[j]
    {
      FinishOnce(job, order, i, j);
    }
    forall i | 0 <= i < |order|
      ensures order[i] < |job.batches|
    {
      FinishesKnown(job, order, i);
    }
    DistinctCount(order);
    assert Elements(order) == UpTo(|job.batches|);
  }

  lemma {:induction false} FinishesKnown(job: Job, order: seq<nat>, i: nat)
    requires CanHappen(job, order) && i < |order|
    ensures order[i] < |job.batches|
  {
    CanHappenPrefix(job, order, i);
    EveryState(job, order[..i]);
    assert FinishesAt(job, order, i);
  }

  predicate IsErrorOf(o: Outcome, e: EmbedError) {
    match o
    case Embedded(_) => false
    case Refused(error) => e == BatchFailed(error)
    case Panicked => e == TaskPanicked
  }

  /** A failed run reports the error of the batch that finished last, all earlier ones having
      embedded. */
  lemma {:induction false} FailureIsABatch(job: Job, order: seq<nat>)
    requires CanHappen(job, order) && Replay(job, order).failed.Some?
    ensures order != [] && order[|order| - 1] < |job.batches|
    ensures IsErrorOf(job.outcome(order[|order| - 1]), Replay(job, order).failed.value)
    ensures forall i: nat :: i + 1 < |order| ==> job.outcome(order[i]).Embedded?
  {
    var n := |order| - 1;
    assert FinishesAt(job, order, n);
    FinishesKnown(job, order, n);
    CanHappenPrefix(job, order, n);
    EveryState(job, order[..n]);
    forall i: nat | i + 1 < |order|
      ensures job.outcome(order[i]).Embedded?
    {
      NotFailed(job, order, i);
    }
  }

  /** A run that cannot go on succeeds exactly when every batch embeds. */
  lemma {:induction false} SucceedsIffAllEmbed(job: Job, order: seq<nat>)
    requires CanHappen(job, order)
    requires Replay(job, order).failed.Some? || Replay(job, order).inFlight == {}
    ensures Replay(job, order).failed.None? <==> AllEmbedded(job)
  {
    if Replay(job, order).failed.Some? {
      FailureIsABatch(job, order);
    } else {
      OrderDoesNotMatter(job, order);
    }
  }

  // ---- what is reported ----

  /** How many texts the batches of `done` hold. */
  function TextsIn(batches: seq<seq<string>>, done: set<nat>): nat {
    if batches == [] then 0 else
    var n := |batches| - 1;
    TextsIn(batches[..n], done) + (if n in done then |batches[n]| else 0)
  }

  lemma {:induction false} TextsInAdd(batches: seq<seq<string>>, done: set<nat>, b: nat)
    requires b !in done
    ensures TextsIn(batches, done + {b}) == TextsIn(batches, done) + (if b < |batches| then |batches[b]| else 0)
  {
    if batches != [] { TextsInAdd(batches[..|batches| - 1], done, b); }
  }

  lemma {:induction false} TextsInAll(batches: seq<seq<string>>, done: set<nat>)
    requires forall b: nat :: b < |batches| ==> b in done
    ensures TextsIn(batches, done) == |Concat(batches)|
  {
    if batches != [] { TextsInAll(batches[..|batches| - 1], done); }
  }

  lemma {:induction false} TextsInNone(batches: seq<seq<string>>)
    ensures TextsIn(batches, {}) == 0
  {
    if batches != [] { TextsInNone(batches[..|batches| - 1]); }
  }

  lemma SumSnoc(ns: seq<nat>, n: nat)
    ensures Sum(ns + [n]) == Sum(ns) + n
  {
    assert (ns + [n])[..|ns|] == ns;
  }

  /** At every moment the sizes reported add up to the texts of the finished batches. */
  lemma {:induction false} ReportsAddUp(job: Job, order: seq<nat>)
    requires CanHappen(job, order)
    ensures Sum(Replay(job, order).reported) == TextsIn(job.batches, Stored(job, order))
  {
    if order == [] {
      assert Stored(job, order) == {};
      TextsInNone(job.batches);
    } else {
      var n := |order| - 1;
      var before, b := order[..n], order[n];
      CanHappenPrefix(job, order, n);
      ReportsAddUp(job, before);
      EveryState(job, before);
      assert FinishesAt(job, order, n);
      StoredSnoc(job, before, b);
      assert order == before + [b];
      FinishReports(job, Replay(job, before), Stored(job, before), b);
    }
  }

  lemma FinishReports(job: Job, p: Progress, done: set<nat>, b: nat)
    requires Inv(job, p, done) && p.failed.None? && b in p.inFlight
    requires Sum(p.reported) == TextsIn(job.batches, done)
    ensures Sum(Finish(job, p, b).reported)
            == TextsIn(job.batches, done + (if job.outcome(b).Embedded? then {b} else {}))
  {
    if job.outcome(b).Embedded? {
      TextsInAdd(job.batches, done, b);
      SumSnoc(p.reported, |job.batches[b]|);
    } else {
      assert done + {} == done;
    }
  }

  lemma {:induction false} AllReported(job: Job, order: seq<nat>)
    requires CanHappen(job, order) && Completed(Replay(job, order))
    ensures Sum(Replay(job, order).reported) == |Concat(job.batches)|
  {
    ReportsAddUp(job, order);
    EachFinishesOnce(job, order);
    OrderDoesNotMatter(job, order);
    TextsInAll(job.batches, Stored(job, order));
  }
}
