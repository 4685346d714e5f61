/** Batched retrieval of discussion threads in scripts/pr-metrics.mjs (`fetchThreadsBatch`,
    `fetchAllThreads`): batches of 10, a failed fetch read as an empty list, and one retry of
    a batch of two or more whose every result came back empty. */
module ThreadRetrieval {

  const BatchSize: nat := 10

  /** A settled thread request: fulfilled with its threads, or rejected. */
  datatype Outcome<T> = Fulfilled(threads: seq<T>) | Rejected

  /** The API, as seen by the batch loop: the outcome of the request for the pull request at
      position `k` of the input, on attempt 0 (first fetch) or 1 (the retry). */
  type ThreadFetch<T> = (nat, nat) -> Outcome<T>

  /** A rejected request counts as an empty thread list. */
  function ThreadsOf<T>(o: Outcome<T>): seq<T> {
    match o
    case Fulfilled(ts) => ts
    case Rejected => []
  }

  function BatchEnd(n: nat, start: nat): (e: nat)
    ensures e <= n || e == start
    ensures start < n ==> start < e <= n && e - start <= BatchSize
  {
    if start + BatchSize <= n then start + BatchSize else if start <= n then n else start
  }

  /** `fetchThreadsBatch`: one (id, threads) pair per member of the batch, in batch order. */
  function FetchBatch<T>(ids: seq<int>, fetch: ThreadFetch<T>, start: nat, end: nat, attempt: nat): (rs: seq<(int, seq<T>)>)
    requires start <= end <= |ids|
    ensures |rs| == end - start
    ensures forall j :: 0 <= j < |rs| ==> rs[j] == (ids[start + j], ThreadsOf(fetch(start + j, attempt)))
  {
    seq(end - start, j requires 0 <= j < end - start => (ids[start + j], ThreadsOf(fetch(start + j, attempt))))
  }

  predicate AllEmpty<T>(rs: seq<(int, seq<T>)>) {
    forall j :: 0 <= j < |rs| ==> |rs[j].1| == 0
  }

  /** The rate-limit heuristic: a batch of more than one whose every first result is empty. */
  predicate Retried<T>(ids: seq<int>, fetch: ThreadFetch<T>, start: nat, end: nat)
    requires start <= end <= |ids|
  {
    AllEmpty(FetchBatch(ids, fetch, start, end, 0)) && end - start > 1
  }

  /** The results a batch finally stores: the retry's if it was retried, the first ones otherwise. */
  function BatchResults<T>(ids: seq<int>, fetch: ThreadFetch<T>, start: nat, end: nat): seq<(int, seq<T>)>
    requires start <= end <= |ids|
  {
    FetchBatch(ids, fetch, start, end, if Retried(ids, fetch, start, end) then 1 else 0)
  }

  /** The ids at positions `a` to `b` (exclusive). */
  function IdsBetween(ids: seq<int>, a: nat, b: nat): (r: set<int>)
    requires a <= b <= |ids|
    ensures forall id :: id in r <==> exists k :: a <= k < b && ids[k] == id
    decreases b
  {
    if a == b then {} else IdsBetween(ids, a, b - 1) + {ids[b - 1]}
  }

  /** The ids of a list of results. */
  function IdsOf<T>(rs: seq<(int, seq<T>)>): (r: set<int>)
    ensures forall id :: id in r <==> exists j :: 0 <= j < |rs| && rs[j].0 == id
  {
    if rs == [] then {} else IdsOf(rs[..|rs| - 1]) + {rs[|rs| - 1].0}
  }

  /** `threadMap.set` for each result in order: a later pair for the same id overwrites. */
  function Store<T>(m: map<int, seq<T>>, rs: seq<(int, seq<T>)>): map<int, seq<T>> {
    if rs == [] then m
    else
      var last := rs[|rs| - 1];
      Store(m, rs[..|rs| - 1])[last.0 := last.1]
  }

  lemma {:induction false} StoreKeys<T>(m: map<int, seq<T>>, rs: seq<(int, seq<T>)>)
    ensures Store(m, rs).Keys == m.Keys + IdsOf(rs)
  {
    if rs != [] {
      StoreKeys(m, rs[..|rs| - 1]);
    }
  }

  lemma BatchIds<T>(ids: seq<int>, fetch: ThreadFetch<T>, start: nat, end: nat, attempt: nat)
    requires start <= end <= |ids|
    ensures IdsOf(FetchBatch(ids, fetch, start, end, attempt)) == IdsBetween(ids, start, end)
  {
    var rs := FetchBatch(ids, fetch, start, end, attempt);
    forall id | id in IdsBetween(ids, start, end) ensures id in IdsOf(rs) {
      var k :| start <= k < end && ids[k] == id;
      assert rs[k - start].0 == id;
    }
  }

  /** The map built by the batch loop from batch `start` on. */
  function ThreadsFrom<T>(ids: seq<int>, fetch: ThreadFetch<T>, start: nat, m: map<int, seq<T>>): map<int, seq<T>>
    requires start <= |ids|
    decreases |ids| - start
  {
    if start == |ids| then m
    else
      var end := BatchEnd(|ids|, start);
      ThreadsFrom(ids, fetch, end, Store(m, BatchResults(ids, fetch, start, end)))
  }

  lemma {:induction false} ThreadsFromKeys<T>(ids: seq<int>, fetch: ThreadFetch<T>, start: nat, m: map<int, seq<T>>)
    requires start <= |ids|
    ensures ThreadsFrom(ids, fetch, start, m).Keys == m.Keys + IdsBetween(ids, start, |ids|)
    decreases |ids| - start
  {
    if start < |ids| {
      var end := BatchEnd(|ids|, start);
      var rs := BatchResults(ids, fetch, start, end);
      BatchIds(ids, fetch, start, end, if Retried(ids, fetch, start, end) then 1 else 0);
      StoreKeys(m, rs);
      ThreadsFromKeys(ids, fetch, end, Store(m, rs));
    }
  }

  /** The inner loop `for (const r of batchResults) threadMap.set(r.prId, r.threads)`. */
  method StoreAll<T>(m: map<int, seq<T>>, batchResults: seq<(int, seq<T>)>) returns (threadMap: map<int, seq<T>>)
    ensures threadMap == Store(m, batchResults)
  {
    threadMap := m;
    var j := 0;
    while j < |batchResults|
      invariant j <= |batchResults|
      invariant threadMap == Store(m, batchResults[..j])
    {
      assert batchResults[..j + 1][..j] == batchResults[..j];
      threadMap := threadMap[batchResults[j].0 := batchResults[j].1];
      j := j + 1;
    }
    assert batchResults[..j] == batchResults;
  }

  /** `fetchAllThreads`. */
  method FetchAllThreads<T>(ids: seq<int>, fetch: ThreadFetch<T>) returns (threadMap: map<int, seq<T>>)
    ensures threadMap == ThreadsFrom(ids, fetch, 0, map[])
  {
    threadMap := map[];
    var i := 0;
    while i < |ids|
      invariant i <= |ids|
      invariant ThreadsFrom(ids, fetch, 0, map[]) == ThreadsFrom(ids, fetch, i, threadMap)
      decreases |ids| - i
    {
      var end := BatchEnd(|ids|, i);
      var batchResults := FetchBatch(ids, fetch, i, end, 0);
      var allEmpty := AllEmpty(batchResults);
      if allEmpty && end - i > 1 {
        batchResults := FetchBatch(ids, fetch, i, end, 1);
      }
      threadMap := StoreAll(threadMap, batchResults);
      i := end;
    }
  }

  // ---------------------------------------------------------------------------
  // Properties
  // ---------------------------------------------------------------------------

  /** Every input id gets an entry, and nothing else does. */
  lemma EveryIdHasEntry<T>(ids: seq<int>, fetch: ThreadFetch<T>)
    ensures forall id :: id in ThreadsFrom(ids, fetch, 0, map[]) <==> exists k :: 0 <= k < |ids| && ids[k] == id
  {
    ThreadsFromKeys(ids, fetch, 0, map[]);
  }

  /** The batch that holds position `k` starts at the multiple of 10 at or below it. */
  function BatchStartOf(k: nat): nat { k - k % BatchSize }

  /** The threads kept for the pull request at position `k`: from its first request, or
      from the retry when its batch was retried; a rejected request gives []. */
  function Chosen<T>(ids: seq<int>, fetch: ThreadFetch<T>, k: nat): seq<T>
    requires k < |ids|
  {
    var start := BatchStartOf(k);
    var end := BatchEnd(|ids|, start);
    ThreadsOf(fetch(k, if Retried(ids, fetch, start, end) then 1 else 0))
  }

  ghost predicate UniqueIds(ids: seq<int>) {
    forall a, b :: 0 <= a < b < |ids| ==> ids[a] != ids[b]
  }

  lemma {:induction false} StoreAt<T>(m: map<int, seq<T>>, rs: seq<(int, seq<T>)>, j: nat)
    requires j < |rs|
    requires forall a :: j < a < |rs| ==> rs[a].0 != rs[j].0
    ensures rs[j].0 in Store(m, rs) && Store(m, rs)[rs[j].0] == rs[j].1
  {
    if j < |rs| - 1 {
      StoreAt(m, rs[..|rs| - 1], j);
    }
  }

  lemma {:induction false} StoreElsewhere<T>(m: map<int, seq<T>>, rs: seq<(int, seq<T>)>, id: int)
    requires id in m
    requires forall a :: 0 <= a < |rs| ==> rs[a].0 != id
    ensures id in Store(m, rs) && Store(m, rs)[id] == m[id]
  {
    if rs != [] {
      StoreElsewhere(m, rs[..|rs| - 1], id);
    }
  }

  lemma {:induction false} ThreadsFromKeeps<T>(ids: seq<int>, fetch: ThreadFetch<T>, start: nat, m: map<int, seq<T>>, id: int)
    requires id in m
    requires start <= |ids|
    requires forall k :: start <= k < |ids| ==> ids[k] != id
    ensures id in ThreadsFrom(ids, fetch, start, m) && ThreadsFrom(ids, fetch, start, m)[id] == m[id]
    decreases |ids| - start
  {
    ThreadsFromKeys(ids, fetch, start, m);
    if start < |ids| {
      var end := BatchEnd(|ids|, start);
      var rs := BatchResults(ids, fetch, start, end);
      StoreElsewhere(m, rs, id);
      ThreadsFromKeeps(ids, fetch, end, Store(m, rs), id);
    }
  }

  lemma {:induction false} ThreadsFromAt<T>(ids: seq<int>, fetch: ThreadFetch<T>, start: nat, m: map<int, seq<T>>, k: nat)
    requires UniqueIds(ids)
    requires start % BatchSize == 0
    requires start <= k < |ids|
    ensures ids[k] in ThreadsFrom(ids, fetch, start, m) && ThreadsFrom(ids, fetch, start, m)[ids[k]] == Chosen(ids, fetch, k)
    decreases |ids| - start
  {
    var end := BatchEnd(|ids|, start);
    var rs := BatchResults(ids, fetch, start, end);
    if k < end {
      BatchStartIn(start, k);
      StoredInBatch(ids, fetch, start, m, k);
      ThreadsFromKeeps(ids, fetch, end, Store(m, rs), ids[k]);
    } else {
      ThreadsFromAt(ids, fetch, end, Store(m, rs), k);
    }
  }

  lemma BatchStartIn(start: nat, k: nat)
    requires start % BatchSize == 0 && start <= k < start + BatchSize
    ensures BatchStartOf(k) == start
  {
  }

  /** Storing a batch of distinct ids records each member's own result. */
  lemma StoredInBatch<T>(ids: seq<int>, fetch: ThreadFetch<T>, start: nat, m: map<int, seq<T>>, k: nat)
    requires UniqueIds(ids)
    requires start <= k < BatchEnd(|ids|, start) <= |ids|
    ensures var end := BatchEnd(|ids|, start);
      var rs := BatchResults(ids, fetch, start, end);
      ids[k] in Store(m, rs)
      && Store(m, rs)[ids[k]] == ThreadsOf(fetch(k, if Retried(ids, fetch, start, end) then 1 else 0))
  {
    var end := BatchEnd(|ids|, start);
    var rs := BatchResults(ids, fetch, start, end);
    assert forall a :: 0 <= a < |rs| ==> rs[a].0 == ids[start + a];
    StoreAt(m, rs, k - start);
  }

  /** With distinct ids, each pull request's entry holds exactly the threads of its own
      request (the retry's when its batch was retried), and [] when that request was rejected. */
  lemma EntryIsChosenThreads<T>(ids: seq<int>, fetch: ThreadFetch<T>, k: nat)
    requires UniqueIds(ids)
    requires k < |ids|
    ensures ids[k] in ThreadsFrom(ids, fetch, 0, map[]) && ThreadsFrom(ids, fetch, 0, map[])[ids[k]] == Chosen(ids, fetch, k)
  {
    ThreadsFromAt(ids, fetch, 0, map[], k);
  }

  /** A batch is re-fetched only when it has two or more members and all of them came back
      empty the first time; otherwise the first results are kept. */
  lemma RetryOnlyWhenAllEmpty<T>(ids: seq<int>, fetch: ThreadFetch<T>, k: nat)
    requires k < |ids|
    requires BatchEnd(|ids|, BatchStartOf(k)) - BatchStartOf(k) == 1
          || exists j :: BatchStartOf(k) <= j < BatchEnd(|ids|, BatchStartOf(k)) && ThreadsOf(fetch(j, 0)) != []
    ensures Chosen(ids, fetch, k) == ThreadsOf(fetch(k, 0))
  {
    var start := BatchStartOf(k);
    var end := BatchEnd(|ids|, start);
    if end - start != 1 {
      var j :| start <= j < end && ThreadsOf(fetch(j, 0)) != [];
      assert FetchBatch(ids, fetch, start, end, 0)[j - start].1 != [];
    }
  }
}
