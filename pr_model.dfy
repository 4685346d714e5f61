/** The pull-request snapshot read by scripts/pr-metrics.mjs and its per-PR helpers
    `findFirstReviewDate`, `getLastActivityDate` and `isStale`. Timestamps are integer
    milliseconds; a missing or falsy string field is the empty string. */
module PrModel {
  import opened Wrappers
  import opened Seqs

  const MsPerHour: int := 3600000
  const MsPerDay: int := 86400000

  datatype Status = Active | Completed | Abandoned

  datatype Identity = Identity(id: string, displayName: string)

  /** A reviewer assignment: `vote` 0 means assigned but not acted; `isContainer` marks a group. */
  datatype Reviewer = Reviewer(id: string, displayName: string, vote: int, isContainer: bool)

  /** A discussion thread: whether its `CodeReviewThreadType` is `VoteUpdate`, the author id of
      its first comment if any, its published time and its last-updated time when that parses. */
  datatype Thread = Thread(isVoteUpdate: bool, voterId: Option<string>, publishedDate: int,
                           lastUpdatedDate: Option<int>)

  datatype PullRequest = PullRequest(
    pullRequestId: int,
    title: string,
    status: Status,
    creationDate: int,
    closedDate: Option<int>,
    createdBy: Option<Identity>,
    repoName: string,
    reviewers: seq<Reviewer>,
    url: string)

  /** `pr.createdBy?.id`. */
  function CreatorId(pr: PullRequest): Option<string> {
    if pr.createdBy.Some? then Some(pr.createdBy.value.id) else None
  }

  /** `threadMap.get(pr.pullRequestId) || []`. */
  function ThreadsFor(threadMap: map<int, seq<Thread>>, id: int): seq<Thread> {
    if id in threadMap then threadMap[id] else []
  }

  /** Milliseconds as hours. */
  function Hours(ms: int): real {
    ms as real / MsPerHour as real
  }

  // ---------------------------------------------------------------------------
  // Earliest vote thread
  // ---------------------------------------------------------------------------

  /** `reduce((min, t) => t.publishedDate < min.publishedDate ? t : min)`: the first thread
      with the smallest published time. */
  function Earliest(ts: seq<Thread>): (e: Thread)
    requires ts != []
    ensures e in ts
    ensures forall i :: 0 <= i < |ts| ==> e.publishedDate <= ts[i].publishedDate
  {
    if |ts| == 1 then ts[0]
    else
      var m := Earliest(ts[..|ts| - 1]);
      var t := ts[|ts| - 1];
      assert forall i :: 0 <= i < |ts| - 1 ==> ts[i] == ts[..|ts| - 1][i];
      if t.publishedDate < m.publishedDate then t else m
  }

  /** A thread that records a review of a PR by someone other than its creator: a vote
      update whose first-comment author is present, non-empty and not the creator. */
  predicate IsPeerVote(t: Thread, creatorId: Option<string>) {
    t.isVoteUpdate && t.voterId.Some? && t.voterId.value != "" && t.voterId != creatorId
  }

  /** `findFirstReviewDate`: the published time of the earliest peer vote, or None. */
  function FindFirstReviewDate(threads: seq<Thread>, creatorId: Option<string>): (r: Option<int>)
    ensures r.None? <==> forall i :: 0 <= i < |threads| ==> !IsPeerVote(threads[i], creatorId)
    ensures r.Some? ==> exists i :: 0 <= i < |threads| && IsPeerVote(threads[i], creatorId)
                                    && threads[i].publishedDate == r.value
    ensures r.Some? ==> forall i :: 0 <= i < |threads| && IsPeerVote(threads[i], creatorId)
                                    ==> r.value <= threads[i].publishedDate
  {
    var votes := Filter(threads, t => IsPeerVote(t, creatorId));
    if votes == [] then None
    else
      var e := Earliest(votes);
      forall i | 0 <= i < |threads| && IsPeerVote(threads[i], creatorId)
        ensures e.publishedDate <= threads[i].publishedDate
      {
        FilterKeeps(threads, t => IsPeerVote(t, creatorId), threads[i]);
      }
      Some(e.publishedDate)
  }

  /** A vote update whose first-comment author is this reviewer. */
  predicate IsVoteBy(t: Thread, reviewerId: string) {
    t.isVoteUpdate && t.voterId == Some(reviewerId)
  }

  /** The published time of the reviewer's earliest vote update on a PR, or None. */
  function FirstVoteBy(threads: seq<Thread>, reviewerId: string): (r: Option<int>)
    ensures r.None? <==> forall i :: 0 <= i < |threads| ==> !IsVoteBy(threads[i], reviewerId)
    ensures r.Some? ==> exists i :: 0 <= i < |threads| && IsVoteBy(threads[i], reviewerId)
                                    && threads[i].publishedDate == r.value
    ensures r.Some? ==> forall i :: 0 <= i < |threads| && IsVoteBy(threads[i], reviewerId)
                                    ==> r.value <= threads[i].publishedDate
  {
    var votes := Filter(threads, t => IsVoteBy(t, reviewerId));
    if votes == [] then None
    else
      var e := Earliest(votes);
      forall i | 0 <= i < |threads| && IsVoteBy(threads[i], reviewerId)
        ensures e.publishedDate <= threads[i].publishedDate
      {
        FilterKeeps(threads, t => IsVoteBy(t, reviewerId), threads[i]);
      }
      Some(e.publishedDate)
  }

  /** A peer's own vote is a peer vote: the per-reviewer search never finds a vote earlier
      than the PR's first review. */
  lemma FirstVoteByNotBeforeFirstReview(threads: seq<Thread>, pr: PullRequest, reviewerId: string)
    requires reviewerId != "" && Some(reviewerId) != CreatorId(pr)
    requires FirstVoteBy(threads, reviewerId).Some?
    ensures FindFirstReviewDate(threads, CreatorId(pr)).Some?
    ensures FindFirstReviewDate(threads, CreatorId(pr)).value <= FirstVoteBy(threads, reviewerId).value
  {
    var i :| 0 <= i < |threads| && IsVoteBy(threads[i], reviewerId)
             && threads[i].publishedDate == FirstVoteBy(threads, reviewerId).value;
    assert IsPeerVote(threads[i], CreatorId(pr));
  }

  // ---------------------------------------------------------------------------
  // Last activity and staleness
  // ---------------------------------------------------------------------------

  /** The valid thread `lastUpdatedDate` values, in thread order. */
  function ValidDates(threads: seq<Thread>): (ds: seq<int>)
    ensures forall d :: d in ds <==> exists i :: 0 <= i < |threads| && threads[i].lastUpdatedDate == Some(d)
  {
    if threads == [] then []
    else
      var t := threads[|threads| - 1];
      assert forall i :: 0 <= i < |threads| - 1 ==> threads[i] == threads[..|threads| - 1][i];
      ValidDates(threads[..|threads| - 1]) + (if t.lastUpdatedDate.Some? then [t.lastUpdatedDate.value] else [])
  }

  function MaxOf(ds: seq<int>): (m: int)
    requires ds != []
    ensures m in ds && forall i :: 0 <= i < |ds| ==> ds[i] <= m
  {
    if |ds| == 1 then ds[0]
    else
      var m := MaxOf(ds[..|ds| - 1]);
      assert forall i :: 0 <= i < |ds| - 1 ==> ds[i] == ds[..|ds| - 1][i];
      if ds[|ds| - 1] > m then ds[|ds| - 1] else m
  }

  /** `getLastActivityDate`: the latest valid thread update, or the creation time when no
      thread has one. */
  function LastActivity(pr: PullRequest, threads: seq<Thread>): (r: int)
    ensures (forall i :: 0 <= i < |threads| ==> threads[i].lastUpdatedDate.None?) ==> r == pr.creationDate
    ensures (exists i :: 0 <= i < |threads| && threads[i].lastUpdatedDate.Some?) ==>
      && (exists i :: 0 <= i < |threads| && threads[i].lastUpdatedDate == Some(r))
      && (forall i :: 0 <= i < |threads| && threads[i].lastUpdatedDate.Some? ==> threads[i].lastUpdatedDate.value <= r)
  {
    var ds := ValidDates(threads);
    if ds == [] then pr.creationDate
    else
      var m := MaxOf(ds);
      forall i | 0 <= i < |threads| && threads[i].lastUpdatedDate.Some?
        ensures threads[i].lastUpdatedDate.value <= m
      {
        var d := threads[i].lastUpdatedDate.value;
        assert d in ds;
      }
      m
  }

  /** Days since last activity, as a real: `(now - lastActivity) / 86400000`. */
  function IdleDays(pr: PullRequest, threads: seq<Thread>, now: int): real {
    (now - LastActivity(pr, threads)) as real / MsPerDay as real
  }

  /** `isStale`: only an active PR can be stale, and it is when its idle time exceeds the threshold. */
  predicate IsStale(pr: PullRequest, threads: seq<Thread>, staleDays: int, now: int) {
    pr.status == Active && IdleDays(pr, threads, now) > staleDays as real
  }

  /** `Math.floor((now - lastActivity) / 86400000)`: Dafny's division by a positive divisor
      rounds down, as `Math.floor` does. */
  function DaysStale(pr: PullRequest, threads: seq<Thread>, now: int): (d: int)
    ensures d as real <= IdleDays(pr, threads, now) < d as real + 1.0
  {
    var ms := now - LastActivity(pr, threads);
    var d := ms / MsPerDay;
    assert d * MsPerDay <= ms < d * MsPerDay + MsPerDay;
    assert (d * MsPerDay) as real <= ms as real < (d * MsPerDay + MsPerDay) as real;
    d
  }

  /** A stale PR is idle for at least the threshold in whole days. */
  lemma StaleDaysAtLeastThreshold(pr: PullRequest, threads: seq<Thread>, staleDays: int, now: int)
    requires IsStale(pr, threads, staleDays, now)
    ensures DaysStale(pr, threads, now) >= staleDays
  {
    var d := DaysStale(pr, threads, now);
    assert staleDays as real < d as real + 1.0;
  }
}
