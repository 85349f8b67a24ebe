/** Embedding a corpus (src/embed.rs): cut into batches, embedded concurrently, put back in order. */
module Embedding {
  import opened Options
  import opened Ordering
  import opened Scheduling

  // ---- request batches ----

  function WithPrefix(prefix: string, text: string): string { if prefix == "" then text else prefix + text }

  function Prefixed(prefix: string, texts: seq<string>): seq<string> {
    seq(|texts|, i requires 0 <= i < |texts| => WithPrefix(prefix, texts[i]))
  }

  function DocumentBatches(texts: seq<string>, size: nat, prefix: string): seq<seq<string>>
    requires size > 0
  {
    if texts == [] then []
    else if |texts| <= size then [Prefixed(prefix, texts)]
    else [Prefixed(prefix, texts[..size])] + DocumentBatches(texts[size..], size, prefix)
  }

  lemma {:induction false} ConcatCons<T>(s: seq<T>, ss: seq<seq<T>>)
    ensures Concat([s] + ss) == s + Concat(ss)
  {
    if ss == [] {
      assert [s] + ss == [s] && [s][..0] == [];
    } else {
      var n := |ss| - 1;
      ConcatCons(s, ss[..n]);
      assert ([s] + ss)[..n + 1] == [s] + ss[..n];
    }
  }

  /** The batches hold the prefixed texts in order, each full but the last. */
  lemma {:induction false} BatchesHoldTexts(texts: seq<string>, size: nat, prefix: string)
    requires size > 0
    ensures var batches := DocumentBatches(texts, size, prefix);
      && Concat(batches) == Prefixed(prefix, texts)
      && (forall k :: 0 <= k < |texts| ==> Prefixed(prefix, texts)[k] == prefix + texts[k])
      && (forall b: nat :: b < |batches| ==> 0 < |batches[b]| <= size)
      && (forall b: nat :: b + 1 < |batches| ==> |batches[b]| == size)
    decreases |texts|
  {
    hide Concat, Prefixed;
    PrefixedSplits(prefix, texts, 0);
    if |texts| > size {
      var first, rest := Prefixed(prefix, texts[..size]), DocumentBatches(texts[size..], size, prefix);
      BatchesHoldTexts(texts[size..], size, prefix);
      PrefixedSplits(prefix, texts, size);
      ConcatCons(first, rest);
      forall b: nat | b < |[first] + rest|
        ensures 0 < |([first] + rest)[b]| <= size && (b + 1 < |[first] + rest| ==> |([first] + rest)[b]| == size)
      {
        if b > 0 { assert ([first] + rest)[b] == rest[b - 1]; }
      }
    } else if texts != [] {
      PrefixedSplits(prefix, texts, |texts|);
      ConcatCons(Prefixed(prefix, texts), []);
      assert [Prefixed(prefix, texts)] + [] == [Prefixed(prefix, texts)];
      ConcatNone();
    } else {
      PrefixedSplits(prefix, texts, 0);
      ConcatNone();
    }
  }

  lemma ConcatNone()
    ensures Concat<string>([]) == []
  {
  }

  lemma PrefixedSplits(prefix: string, texts: seq<string>, n: nat)
    requires n <= |texts|
    ensures |Prefixed(prefix, texts)| == |texts| && |Prefixed(prefix, texts[..n])| == n
    ensures forall k :: 0 <= k < |texts| ==> Prefixed(prefix, texts)[k] == prefix + texts[k]
    ensures Prefixed(prefix, texts) == Prefixed(prefix, texts[..n]) + Prefixed(prefix, texts[n..])
  {
  }

  // ---- one batch's reply ----

  datatype Entry = Entry(index: nat, vector: Vector)

  function Insert(s: seq<Entry>, e: Entry): seq<Entry> {
    if s == [] || s[|s| - 1].index <= e.index then s + [e] else Insert(s[..|s| - 1], e) + [s[|s| - 1]]
  }

  /** A stable sort by index. */
  function SortByIndex(data: seq<Entry>): seq<Entry> {
    if data == [] then [] else Insert(SortByIndex(data[..|data| - 1]), data[|data| - 1])
  }

  ghost predicate InOrder(s: seq<Entry>) { forall i: nat, j: nat :: i < j < |s| ==> s[i].index <= s[j].index }

  ghost predicate Ascends(s: seq<Entry>) { forall i: nat, j: nat :: i < j < |s| ==> s[i].index < s[j].index }

  ghost predicate Distinct(s: seq<Entry>) { forall i: nat, j: nat :: i < j < |s| ==> s[i].index != s[j].index }

  lemma {:induction false} InsertCounts(s: seq<Entry>, e: Entry)
    ensures multiset(Insert(s, e)) == multiset(s) + multiset{e}
  {
    if s != [] && s[|s| - 1].index > e.index {
      InsertCounts(s[..|s| - 1], e);
      assert s == s[..|s| - 1] + [s[|s| - 1]];
    }
  }

  lemma InsertHolds(s: seq<Entry>, e: Entry, i: nat)
    requires i < |Insert(s, e)|
    ensures Insert(s, e)[i] in s || Insert(s, e)[i] == e
  {
    hide Insert;
    InsertCounts(s, e);
    assert Insert(s, e)[i] in multiset(Insert(s, e));
  }

  lemma {:induction false} InsertOrdered(s: seq<Entry>, e: Entry)
    requires InOrder(s)
    ensures InOrder(Insert(s, e))
  {
    if s != [] && s[|s| - 1].index > e.index {
      var front, last := s[..|s| - 1], s[|s| - 1];
      InsertOrdered(front, e);
      forall i: nat | i < |Insert(front, e)|
        ensures Insert(front, e)[i].index <= last.index
      {
        InsertHolds(front, e, i);
      }
    }
  }

  /** Sorting keeps every entry as often as it came and puts the indexes in order, whatever the reply. */
  lemma {:induction false} SortKeeps(data: seq<Entry>)
    ensures multiset(SortByIndex(data)) == multiset(data)
    ensures InOrder(SortByIndex(data))
  {
    if data != [] {
      var n := |data| - 1;
      SortKeeps(data[..n]);
      InsertCounts(SortByIndex(data[..n]), data[n]);
      InsertOrdered(SortByIndex(data[..n]), data[n]);
      assert data == data[..n] + [data[n]];
    }
  }

  lemma Twice(s: seq<Entry>, i: nat, j: nat)
    requires i < j < |s| && s[i] == s[j]
    ensures multiset(s)[s[i]] >= 2
  {
    assert s == s[..j] + s[j..];
    assert s[..j][i] == s[i] && s[j..][0] == s[j];
    assert s[i] in multiset(s[..j]) && s[i] in multiset(s[j..]);
  }

  lemma {:induction false} Once(s: seq<Entry>, x: Entry)
    requires Distinct(s)
    ensures multiset(s)[x] <= 1
  {
    if s != [] {
      var n := |s| - 1;
      assert s == s[..n] + [s[n]];
      Once(s[..n], x);
      assert s[n] !in s[..n];
    }
  }

  /** Distinct indexes come out of the sort strictly ascending. */
  lemma SortAscends(data: seq<Entry>)
    requires Distinct(data)
    ensures |SortByIndex(data)| == |data| && Ascends(SortByIndex(data))
    ensures forall x :: x in SortByIndex(data) <==> x in data
  {
    hide SortByIndex;
    var sorted := SortByIndex(data);
    SortKeeps(data);
    assert |multiset(sorted)| == |multiset(data)|;
    assert forall x :: x in sorted <==> x in multiset(sorted);
    assert forall x :: x in data <==> x in multiset(data);
    forall i: nat, j: nat | i < j < |sorted|
      ensures sorted[i].index != sorted[j].index
    {
      assert sorted[i] in data && sorted[j] in data;
      if sorted[i] == sorted[j] {
        Twice(sorted, i, j);
        Once(data, sorted[i]);
      }
    }
  }

  /** Ascending indexes that fit below `n` climb one at a time. */
  lemma {:induction false} AscendsByOne(s: seq<Entry>, k: nat)
    requires Ascends(s) && k < |s| && forall i: nat :: i < |s| ==> s[i].index < |s|
    ensures s[k].index == k
  {
    AtLeast(s, k);
    AtMost(s, k);
  }

  lemma {:induction false} AtLeast(s: seq<Entry>, k: nat)
    requires Ascends(s) && k < |s|
    ensures s[k].index >= k
  {
    if k > 0 { AtLeast(s, k - 1); }
  }

  lemma {:induction false} AtMost(s: seq<Entry>, k: nat)
    requires Ascends(s) && k < |s| && forall i: nat :: i < |s| ==> s[i].index < |s|
    ensures s[k].index <= k
    decreases |s| - k
  {
    if k + 1 < |s| { AtMost(s, k + 1); }
  }

  function VectorsOf(data: seq<Entry>): seq<Vector> { seq(|data|, i requires 0 <= i < |data| => data[i].vector) }

  ghost predicate EntryOk(data: seq<Entry>, batch: seq<string>, model: string -> Vector, i: nat)
    requires i < |data|
  {
    data[i].index < |batch| && data[i].vector == model(batch[data[i].index])
  }

  /** The reply answers the batch: every index once, in any order, each with its text's vector. */
  ghost predicate Answers(data: seq<Entry>, batch: seq<string>, model: string -> Vector) {
    |data| == |batch| && Distinct(data) && forall i: nat :: i < |data| ==> EntryOk(data, batch, model, i)
  }

  function ModelOf(model: string -> Vector, batch: seq<string>): seq<Vector> {
    seq(|batch|, i requires 0 <= i < |batch| => model(batch[i]))
  }

  /** However the service orders its reply, the sorted vectors line up with the batch's texts. */
  lemma SortAligns(data: seq<Entry>, batch: seq<string>, model: string -> Vector)
    requires Answers(data, batch, model)
    ensures VectorsOf(SortByIndex(data)) == ModelOf(model, batch)
  {
    var sorted := SortByIndex(data);
    SortAscends(data);
    forall k: nat | k < |sorted|
      ensures sorted[k].index < |batch| && sorted[k].vector == model(batch[sorted[k].index])
    {
      assert sorted[k] in data;
      var i: nat :| i < |data| && data[i] == sorted[k];
      assert EntryOk(data, batch, model, i);
    }
    forall k: nat | k < |sorted|
      ensures sorted[k].index == k
    {
      AscendsByOne(sorted, k);
    }
  }

  // ---- running the batches ----

  lemma Starts(job: Job)
    ensures CanHappen(job, []) && Replay(job, []) == Begin(job)
  {
  }

  lemma Continues(job: Job, order: seq<nat>, b: nat)
    requires CanHappen(job, order) && Replay(job, order).failed.None? && b in Replay(job, order).inFlight
    ensures CanHappen(job, order + [b]) && Replay(job, order + [b]) == Finish(job, Replay(job, order), b)
    ensures b < |job.batches| == |Replay(job, order).slots|
  {
    var after := order + [b];
    EveryState(job, order);
    assert after[..|order|] == order;
    forall i: nat | i < |after|
      ensures FinishesAt(job, after, i)
    {
      if i < |order| { assert FinishesAt(job, order, i) && after[..i] == order[..i]; }
    }
  }

  lemma Failed(job: Job, order: seq<nat>)
    requires CanHappen(job, order) && Replay(job, order).failed.Some?
    ensures !AllEmbedded(job)
    ensures exists b: nat :: b < |job.batches| && IsErrorOf(job.outcome(b), Replay(job, order).failed.value)
  {
    FailureIsABatch(job, order);
    SucceedsIffAllEmbed(job, order);
  }

  lemma Succeeded(job: Job, order: seq<nat>)
    requires CanHappen(job, order) && Completed(Replay(job, order))
    ensures AllEmbedded(job) && Sum(Replay(job, order).reported) == |Concat(job.batches)|
    ensures var slots := Replay(job, order).slots;
      |slots| == |job.batches| && forall b: nat :: b < |slots| ==> slots[b] == Some(Results(job)[b])
  {
    OrderDoesNotMatter(job, order);
    AllReported(job, order);
    NoEmptySlot(job, order);
  }

  lemma ConcatSnoc<T>(ss: seq<seq<T>>, i: nat)
    requires i < |ss|
    ensures Concat(ss[..i + 1]) == Concat(ss[..i]) + ss[i]
  {
    assert ss[..i + 1][..i] == ss[..i];
  }

  /** The slots' vectors in slot order; every slot must be filled. */
  method Collect(slots: array<Option<seq<Vector>>>, ghost results: seq<seq<Vector>>) returns (all: seq<Vector>)
    requires slots.Length == |results| && forall b: nat :: b < slots.Length ==> slots[b] == Some(results[b])
    ensures all == Concat(results)
  {
    all := [];
    for i := 0 to slots.Length
      invariant all == Concat(results[..i])
    {
      ConcatSnoc(results, i);
      all := all + slots[i].value;
    }
    assert results[..slots.Length] == results;
  }

  lemma UpToStep(n: nat)
    ensures UpTo(0) == {} && UpTo(n + 1) == UpTo(n) + {n}
  {
  }

  /** Take the first batches off the queue, as many as may be in flight. */
  method Prime(n: nat, limit: nat) returns (inFlight: set<nat>, next: nat)
    ensures next == Min(limit, n) && inFlight == UpTo(next)
  {
    hide UpTo;
    UpToStep(0);
    inFlight, next := {}, 0;
    while next < n && next < limit
      invariant next <= n && next <= limit && inFlight == UpTo(next)
    {
      UpToStep(next);
      inFlight, next := inFlight + {next}, next + 1;
    }
  }

  /** Every batch embedded, keeping at most the allowed number in flight; the batch that finishes
      next is any one of those in flight. `order` is the order they finished in. */
  method EmbedBatchesOrdered(job: Job)
    returns (r: Result<seq<Vector>, EmbedError>, reported: seq<nat>, ghost order: seq<nat>)
    ensures CanHappen(job, order) && Replay(job, order).reported == reported
    ensures Replay(job, order).failed == if r.Ok? then None else Some(r.error)
    ensures r.Ok? <==> AllEmbedded(job)
    ensures r.Ok? ==> r.value == Concat(Results(job)) && Sum(reported) == |Concat(job.batches)|
    ensures r.Err? ==> exists b: nat :: b < |job.batches| && IsErrorOf(job.outcome(b), r.error)
  {
    hide Replay, CanHappen, AllEmbedded, Concat, Sum, IsErrorOf;
    var n := |job.batches|;
    order := [];
    Starts(job);
    reported := [];
    var slots := new Option<seq<Vector>>[n](_ => None);
    var inFlight, next := Prime(n, Limit(job));
    assert slots[..] == Begin(job).slots;
    while inFlight != {}
      invariant CanHappen(job, order)
      invariant Replay(job, order) == Progress(next, inFlight, slots[..], reported, None)
      invariant next <= n
      decreases n - next + |inFlight|
    {
      var b :| b in inFlight;
      Continues(job, order, b);
      order := order + [b];
      inFlight := inFlight - {b};
      match job.outcome(b) {
        case Panicked =>
          Failed(job, order);
          return Err(TaskPanicked), reported, order;
        case Refused(error) =>
          Failed(job, order);
          return Err(BatchFailed(error)), reported, order;
        case Embedded(vectors) =>
          slots[b] := Some(vectors);
          reported := reported + [|job.batches[b]|];
          if next < n { inFlight, next := inFlight + {next}, next + 1; }
      }
    }
    Succeeded(job, order);
    assert forall b: nat :: b < n ==> slots[..][b] == slots[b];
    var all := Collect(slots, Results(job));
    r := Ok(all);
  }

  // ---- the whole corpus ----

  /** What the service answers a request with. */
  datatype Reply = Answered(data: seq<Entry>) | Declined(error: string) | Crashed

  /** One batch's task: the reply's vectors put in index order. */
  function EmbedBatch(service: seq<string> -> Reply, batch: seq<string>): Outcome {
    match service(batch)
    case Answered(data) => Embedded(VectorsOf(SortByIndex(data)))
    case Declined(error) => Refused(error)
    case Crashed => Panicked
  }

  function JobOf(texts: seq<string>, size: nat, concurrency: nat, prefix: string, service: seq<string> -> Reply): Job
    requires size > 0
  {
    var batches := DocumentBatches(texts, size, prefix);
    Job(batches, concurrency, (b: nat) => if b < |batches| then EmbedBatch(service, batches[b]) else Panicked)
  }

  /** Whatever the service answers, it answers for the texts it was asked about. */
  ghost predicate Faithful(service: seq<string> -> Reply, model: string -> Vector) {
    forall batch :: service(batch).Answered? ==> Answers(service(batch).data, batch, model)
  }

  lemma ServiceIsPossible(model: string -> Vector)
    ensures Faithful((batch: seq<string>) => Answered(ModelEntries(model, batch)), model)
  {
  }

  function ModelEntries(model: string -> Vector, batch: seq<string>): seq<Entry> {
    seq(|batch|, i requires 0 <= i < |batch| => Entry(i, model(batch[i])))
  }

  lemma {:induction false} ConcatModel(model: string -> Vector, batches: seq<seq<string>>, results: seq<seq<Vector>>)
    requires |results| == |batches| && forall b: nat :: b < |batches| ==> results[b] == ModelOf(model, batches[b])
    ensures Concat(results) == ModelOf(model, Concat(batches))
  {
    if batches == [] {
      assert Concat(results) == ModelOf(model, []);
    } else {
      var n := |batches| - 1;
      ConcatModel(model, batches[..n], results[..n]);
    }
  }

  lemma ResultsAlign(
      texts: seq<string>, size: nat, concurrency: nat, prefix: string, service: seq<string> -> Reply,
      model: string -> Vector)
    requires size > 0 && Faithful(service, model) && AllEmbedded(JobOf(texts, size, concurrency, prefix, service))
    ensures Concat(Results(JobOf(texts, size, concurrency, prefix, service))) == ModelOf(model, Prefixed(prefix, texts))
    ensures |Concat(JobOf(texts, size, concurrency, prefix, service).batches)| == |texts|
  {
    var job := JobOf(texts, size, concurrency, prefix, service);
    BatchesHoldTexts(texts, size, prefix);
    forall b: nat | b < |job.batches|
      ensures Results(job)[b] == ModelOf(model, job.batches[b])
    {
      assert job.outcome(b).Embedded?;
      SortAligns(service(job.batches[b]).data, job.batches[b], model);
    }
    ConcatModel(model, job.batches, Results(job));
  }

  /** However a corpus is cut into batches, no more requests are in flight than configured. */
  lemma RequestsInFlight(
      texts: seq<string>, size: nat, concurrency: nat, prefix: string, service: seq<string> -> Reply, order: seq<nat>)
    requires size > 0 && CanHappen(JobOf(texts, size, concurrency, prefix, service), order)
    ensures |Replay(JobOf(texts, size, concurrency, prefix, service), order).inFlight|
            <= if concurrency == 0 then 1 else concurrency
  {
    InFlight(JobOf(texts, size, concurrency, prefix, service), order);
  }

  /** The reply that makes a run fail with this error. */
  predicate Causes(reply: Reply, error: EmbedError) {
    match error case BatchFailed(e) => reply == Declined(e) case TaskPanicked => reply == Crashed
  }

  lemma AllAnswered(
      texts: seq<string>, size: nat, concurrency: nat, prefix: string, service: seq<string> -> Reply)
    requires size > 0
    ensures AllEmbedded(JobOf(texts, size, concurrency, prefix, service))
            <==> forall batch :: batch in DocumentBatches(texts, size, prefix) ==> service(batch).Answered?
  {
    hide DocumentBatches;
    var job := JobOf(texts, size, concurrency, prefix, service);
    assert forall b: nat :: b < |job.batches| ==>
        (job.outcome(b).Embedded? <==> service(job.batches[b]).Answered?) && job.batches[b] in job.batches;
  }

  lemma ErrorIsReply(
      texts: seq<string>, size: nat, concurrency: nat, prefix: string, service: seq<string> -> Reply, b: nat,
      error: EmbedError)
    requires size > 0 && b < |DocumentBatches(texts, size, prefix)|
    requires IsErrorOf(JobOf(texts, size, concurrency, prefix, service).outcome(b), error)
    ensures Causes(service(DocumentBatches(texts, size, prefix)[b]), error)
  {
  }

  /** Embed a corpus: output `k` is the vector of text `k`, whichever batches finish first and
      however the service orders each reply; progress reports add up to the number of texts. */
  method EmbedTexts(
    texts: seq<string>, size: nat, concurrency: nat, prefix: string, service: seq<string> -> Reply,
    ghost model: string -> Vector)
    returns (r: Result<seq<Vector>, EmbedError>, reported: seq<nat>)
    requires size > 0
    ensures r.Ok? <==> forall batch :: batch in DocumentBatches(texts, size, prefix) ==> service(batch).Answered?
    ensures r.Err? ==> exists batch :: batch in DocumentBatches(texts, size, prefix) && Causes(service(batch), r.error)
    ensures r.Ok? && Faithful(service, model) ==>
      |r.value| == |texts| && Sum(reported) == |texts|
      && forall k: nat :: k < |texts| ==> r.value[k] == model(prefix + texts[k])
  {
    hide Replay, CanHappen, AllEmbedded, Concat, Sum, DocumentBatches;
    var job := JobOf(texts, size, concurrency, prefix, service);
    ghost var order;
    r, reported, order := EmbedBatchesOrdered(job);
    AllAnswered(texts, size, concurrency, prefix, service);
    if b: nat :| r.Err? && b < |job.batches| && IsErrorOf(job.outcome(b), r.error) {
      ErrorIsReply(texts, size, concurrency, prefix, service, b, r.error);
    }
    if r.Ok? && Faithful(service, model) {
      ResultsAlign(texts, size, concurrency, prefix, service, model);
      PrefixedSplits(prefix, texts, 0);
    }
  }
}
