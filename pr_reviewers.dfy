/** Reviewer distribution and absent reviewers, as computed in `main` of
    scripts/pr-metrics.mjs. `reviewerStats` is an object keyed by reviewer id whose values
    list in insertion order; it is modelled as a sequence of entries in that order. */
module PrReviewers {
  import opened Wrappers
  import opened Seqs
  import opened Stats
  import opened PrModel

  datatype ReviewerStat = ReviewerStat(id: string, name: string, reviewCount: nat, firstReviewTimes: seq<real>)

  /** A (PR, reviewer) pair counts unless the reviewer is the creator, did not vote, or is a group. */
  predicate Counted(pr: PullRequest, r: Reviewer) {
    Some(r.id) != CreatorId(pr) && r.vote != 0 && !r.isContainer
  }

  predicate HasId(stats: seq<ReviewerStat>, id: string) {
    exists k :: 0 <= k < |stats| && stats[k].id == id
  }

  function IndexOf(stats: seq<ReviewerStat>, id: string): (r: Option<nat>)
    ensures r.None? <==> !HasId(stats, id)
    ensures r.Some? ==> r.value < |stats| && stats[r.value].id == id
  {
    if stats == [] then None
    else if stats[|stats| - 1].id == id then Some(|stats| - 1)
    else
      var r := IndexOf(stats[..|stats| - 1], id);
      assert forall k :: 0 <= k < |stats| - 1 ==> stats[k] == stats[..|stats| - 1][k];
      r
  }

  /** The reviewer's first-review latency on this PR in hours, when their earliest vote
      update exists and is not before the PR's creation. */
  function ReviewTime(pr: PullRequest, threads: seq<Thread>, r: Reviewer): (t: Option<real>)
    ensures t.Some? ==> t.value >= 0.0
  {
    match FirstVoteBy(threads, r.id)
    case None => None
    case Some(d) => if d - pr.creationDate >= 0 then Some(Hours(d - pr.creationDate)) else None
  }

  /** One more review for an entry, with its latency when there is one. */
  function Bump(e: ReviewerStat, t: Option<real>): ReviewerStat {
    e.(reviewCount := e.reviewCount + 1,
       firstReviewTimes := e.firstReviewTimes + (if t.Some? then [t.value] else []))
  }

  /** The body of the inner loop for one reviewer of one PR. */
  function Record(stats: seq<ReviewerStat>, pr: PullRequest, threads: seq<Thread>, r: Reviewer): seq<ReviewerStat> {
    if !Counted(pr, r) then stats
    else match IndexOf(stats, r.id)
      case None => stats + [Bump(ReviewerStat(r.id, r.displayName, 0, []), ReviewTime(pr, threads, r))]
      case Some(k) => stats[k := Bump(stats[k], ReviewTime(pr, threads, r))]
  }

  function RecordAll(stats: seq<ReviewerStat>, pr: PullRequest, threads: seq<Thread>, rs: seq<Reviewer>): seq<ReviewerStat> {
    if rs == [] then stats
    else Record(RecordAll(stats, pr, threads, rs[..|rs| - 1]), pr, threads, rs[|rs| - 1])
  }

  /** `reviewerStats` after the nested loops over all PRs and their reviewers. */
  function StatsOf(prs: seq<PullRequest>, threadMap: map<int, seq<Thread>>): seq<ReviewerStat> {
    if prs == [] then []
    else
      var pr := prs[|prs| - 1];
      RecordAll(StatsOf(prs[..|prs| - 1], threadMap), pr, ThreadsFor(threadMap, pr.pullRequestId), pr.reviewers)
  }

  /** The nested loops of the reviewer distribution, updating entries in place. */
  method BuildReviewerStats(prs: seq<PullRequest>, threadMap: map<int, seq<Thread>>) returns (stats: seq<ReviewerStat>)
    ensures stats == StatsOf(prs, threadMap)
  {
    stats := [];
    var i := 0;
    while i < |prs|
      invariant i <= |prs|
      invariant stats == StatsOf(prs[..i], threadMap)
    {
      var pr := prs[i];
      var threads := ThreadsFor(threadMap, pr.pullRequestId);
      var before := stats;
      var j := 0;
      while j < |pr.reviewers|
        invariant j <= |pr.reviewers|
        invariant stats == RecordAll(before, pr, threads, pr.reviewers[..j])
      {
        var reviewer := pr.reviewers[j];
        assert pr.reviewers[..j + 1][..j] == pr.reviewers[..j];
        j := j + 1;
        if Some(reviewer.id) == CreatorId(pr) { continue; }
        if reviewer.vote == 0 { continue; }
        if reviewer.isContainer { continue; }
        var k := IndexOf(stats, reviewer.id);
        var time := ReviewTime(pr, threads, reviewer);
        if k.None? {
          stats := stats + [Bump(ReviewerStat(reviewer.id, reviewer.displayName, 0, []), time)];
        } else {
          stats := stats[k.value := Bump(stats[k.value], time)];
        }
      }
      assert pr.reviewers[..j] == pr.reviewers;
      assert prs[..i + 1][..i] == prs[..i];
      i := i + 1;
    }
    assert prs[..i] == prs;
  }

  // ---------------------------------------------------------------------------
  // What the table holds
  // ---------------------------------------------------------------------------

  /** An entry has at least one review, at most one latency per review, and no negative
      latency. */
  predicate EntryOk(e: ReviewerStat) {
    && 1 <= e.reviewCount
    && |e.firstReviewTimes| <= e.reviewCount
    && forall m :: 0 <= m < |e.firstReviewTimes| ==> e.firstReviewTimes[m] >= 0.0
  }

  /** Ids are distinct and every entry is sound. */
  ghost predicate WellFormed(stats: seq<ReviewerStat>) {
    && (forall a, b :: 0 <= a < b < |stats| ==> stats[a].id != stats[b].id)
    && (forall k :: 0 <= k < |stats| ==> EntryOk(stats[k]))
  }

  lemma BumpOk(e: ReviewerStat, t: Option<real>)
    requires |e.firstReviewTimes| <= e.reviewCount
    requires forall m :: 0 <= m < |e.firstReviewTimes| ==> e.firstReviewTimes[m] >= 0.0
    requires t.Some? ==> t.value >= 0.0
    ensures EntryOk(Bump(e, t))
  {
    var b := Bump(e, t);
    assert forall m :: 0 <= m < |e.firstReviewTimes| ==> b.firstReviewTimes[m] == e.firstReviewTimes[m];
  }

  lemma RecordWellFormed(stats: seq<ReviewerStat>, pr: PullRequest, threads: seq<Thread>, r: Reviewer)
    requires WellFormed(stats)
    ensures WellFormed(Record(stats, pr, threads, r))
  {
    if Counted(pr, r) {
      var t := ReviewTime(pr, threads, r);
      match IndexOf(stats, r.id)
      case None =>
        var added := Bump(ReviewerStat(r.id, r.displayName, 0, []), t);
        BumpOk(ReviewerStat(r.id, r.displayName, 0, []), t);
        var s' := stats + [added];
        assert Record(stats, pr, threads, r) == s';
        assert forall k :: 0 <= k < |stats| ==> s'[k] == stats[k];
      case Some(j) =>
        BumpOk(stats[j], t);
        var s' := stats[j := Bump(stats[j], t)];
        assert Record(stats, pr, threads, r) == s';
        assert forall k :: 0 <= k < |stats| ==> s'[k].id == stats[k].id;
    }
  }

  lemma {:induction false} RecordAllWellFormed(stats: seq<ReviewerStat>, pr: PullRequest, threads: seq<Thread>, rs: seq<Reviewer>)
    requires WellFormed(stats)
    ensures WellFormed(RecordAll(stats, pr, threads, rs))
  {
    if rs != [] {
      RecordAllWellFormed(stats, pr, threads, rs[..|rs| - 1]);
      RecordWellFormed(RecordAll(stats, pr, threads, rs[..|rs| - 1]), pr, threads, rs[|rs| - 1]);
    }
  }

  /** The table built from any PRs is well formed. */
  lemma {:induction false} StatsWellFormed(prs: seq<PullRequest>, threadMap: map<int, seq<Thread>>)
    ensures WellFormed(StatsOf(prs, threadMap))
  {
    if prs != [] {
      var pr := prs[|prs| - 1];
      StatsWellFormed(prs[..|prs| - 1], threadMap);
      RecordAllWellFormed(StatsOf(prs[..|prs| - 1], threadMap), pr, ThreadsFor(threadMap, pr.pullRequestId), pr.reviewers);
    }
  }

  function ReviewCountOf(e: ReviewerStat): nat { e.reviewCount }

  /** The number of counted reviewers of one PR. */
  function CountedIn(pr: PullRequest, rs: seq<Reviewer>): nat {
    if rs == [] then 0 else CountedIn(pr, rs[..|rs| - 1]) + (if Counted(pr, rs[|rs| - 1]) then 1 else 0)
  }

  /** The number of counted (PR, reviewer) pairs. */
  function CountedPairs(prs: seq<PullRequest>): nat {
    if prs == [] then 0 else CountedPairs(prs[..|prs| - 1]) + CountedIn(prs[|prs| - 1], prs[|prs| - 1].reviewers)
  }

  lemma RecordSum(stats: seq<ReviewerStat>, pr: PullRequest, threads: seq<Thread>, r: Reviewer)
    ensures SumBy(Record(stats, pr, threads, r), ReviewCountOf) == SumBy(stats, ReviewCountOf) + (if Counted(pr, r) then 1 else 0)
  {
    if Counted(pr, r) {
      var t := ReviewTime(pr, threads, r);
      match IndexOf(stats, r.id)
      case None => SumByAppend(stats, Bump(ReviewerStat(r.id, r.displayName, 0, []), t), ReviewCountOf);
      case Some(k) => SumByUpdate(stats, k, Bump(stats[k], t), ReviewCountOf);
    }
  }

  lemma {:induction false} RecordAllSum(stats: seq<ReviewerStat>, pr: PullRequest, threads: seq<Thread>, rs: seq<Reviewer>)
    ensures SumBy(RecordAll(stats, pr, threads, rs), ReviewCountOf) == SumBy(stats, ReviewCountOf) + CountedIn(pr, rs)
  {
    if rs != [] {
      RecordAllSum(stats, pr, threads, rs[..|rs| - 1]);
      RecordSum(RecordAll(stats, pr, threads, rs[..|rs| - 1]), pr, threads, rs[|rs| - 1]);
    }
  }

  /** The review counts add up to the number of counted (PR, reviewer) pairs. */
  lemma {:induction false} StatsSum(prs: seq<PullRequest>, threadMap: map<int, seq<Thread>>)
    ensures SumBy(StatsOf(prs, threadMap), ReviewCountOf) == CountedPairs(prs)
  {
    if prs != [] {
      var pr := prs[|prs| - 1];
      StatsSum(prs[..|prs| - 1], threadMap);
      RecordAllSum(StatsOf(prs[..|prs| - 1], threadMap), pr, ThreadsFor(threadMap, pr.pullRequestId), pr.reviewers);
    }
  }

  /** The reviewer counted somewhere in `rs` under this id. */
  predicate ReviewsIn(pr: PullRequest, rs: seq<Reviewer>, id: string) {
    exists j :: 0 <= j < |rs| && Counted(pr, rs[j]) && rs[j].id == id
  }

  /** Someone with this id was counted as a reviewer on some PR. */
  predicate HasReviewed(prs: seq<PullRequest>, id: string) {
    exists i :: 0 <= i < |prs| && ReviewsIn(prs[i], prs[i].reviewers, id)
  }

  lemma RecordIds(before: seq<ReviewerStat>, pr: PullRequest, threads: seq<Thread>, r: Reviewer, id: string)
    ensures HasId(Record(before, pr, threads, r), id) <==> HasId(before, id) || (Counted(pr, r) && r.id == id)
  {
    var after := Record(before, pr, threads, r);
    if Counted(pr, r) {
      var t := ReviewTime(pr, threads, r);
      match IndexOf(before, r.id)
      case None =>
        assert after == before + [Bump(ReviewerStat(r.id, r.displayName, 0, []), t)];
        assert after[|before|].id == r.id;
        if HasId(before, id) {
          var k :| 0 <= k < |before| && before[k].id == id;
          assert after[k].id == id;
        }
      case Some(k) =>
        assert after == before[k := Bump(before[k], t)];
        if HasId(after, id) {
          var m :| 0 <= m < |after| && after[m].id == id;
          assert before[m].id == id;
        }
        if HasId(before, id) {
          var m :| 0 <= m < |before| && before[m].id == id;
          assert after[m].id == id;
        }
    }
  }

  lemma {:induction false} RecordAllIds(stats: seq<ReviewerStat>, pr: PullRequest, threads: seq<Thread>, rs: seq<Reviewer>, id: string)
    ensures HasId(RecordAll(stats, pr, threads, rs), id) <==> HasId(stats, id) || ReviewsIn(pr, rs, id)
  {
    if rs != [] {
      var prefix := rs[..|rs| - 1];
      var r := rs[|rs| - 1];
      RecordAllIds(stats, pr, threads, prefix, id);
      RecordIds(RecordAll(stats, pr, threads, prefix), pr, threads, r, id);
      assert ReviewsIn(pr, rs, id) <==> ReviewsIn(pr, prefix, id) || (Counted(pr, r) && r.id == id) by {
        if ReviewsIn(pr, prefix, id) {
          var j :| 0 <= j < |prefix| && Counted(pr, prefix[j]) && prefix[j].id == id;
          assert rs[j] == prefix[j];
        }
        if ReviewsIn(pr, rs, id) {
          var j :| 0 <= j < |rs| && Counted(pr, rs[j]) && rs[j].id == id;
          if j < |prefix| { assert prefix[j] == rs[j]; }
        }
      }
    }
  }

  /** An id gets an entry exactly when some PR counted a review under that id: creators,
      zero votes and groups never create one. */
  lemma {:induction false} StatsIds(prs: seq<PullRequest>, threadMap: map<int, seq<Thread>>, id: string)
    ensures HasId(StatsOf(prs, threadMap), id) <==> HasReviewed(prs, id)
  {
    if prs != [] {
      var prefix := prs[..|prs| - 1];
      var pr := prs[|prs| - 1];
      StatsIds(prefix, threadMap, id);
      RecordAllIds(StatsOf(prefix, threadMap), pr, ThreadsFor(threadMap, pr.pullRequestId), pr.reviewers, id);
      assert HasReviewed(prs, id) <==> HasReviewed(prefix, id) || ReviewsIn(pr, pr.reviewers, id) by {
        if HasReviewed(prefix, id) {
          var i :| 0 <= i < |prefix| && ReviewsIn(prefix[i], prefix[i].reviewers, id);
          assert prs[i] == prefix[i];
        }
        if HasReviewed(prs, id) {
          var i :| 0 <= i < |prs| && ReviewsIn(prs[i], prs[i].reviewers, id);
          if i < |prefix| { assert prefix[i] == prs[i]; }
        }
      }
    }
  }

  // ---------------------------------------------------------------------------
  // What one reviewer's entry holds
  // ---------------------------------------------------------------------------

  /** The number of counted reviewers of one PR under this id. */
  function ReviewsByIn(pr: PullRequest, rs: seq<Reviewer>, id: string): nat {
    if rs == [] then 0
    else ReviewsByIn(pr, rs[..|rs| - 1], id) + (if Counted(pr, rs[|rs| - 1]) && rs[|rs| - 1].id == id then 1 else 0)
  }

  /** The number of counted (PR, reviewer) pairs whose reviewer has this id. */
  function ReviewsBy(prs: seq<PullRequest>, id: string): nat {
    if prs == [] then 0
    else ReviewsBy(prs[..|prs| - 1], id) + ReviewsByIn(prs[|prs| - 1], prs[|prs| - 1].reviewers, id)
  }

  /** The latency of a counted reviewer under this id, when it has one. */
  function SampleBy(pr: PullRequest, threads: seq<Thread>, r: Reviewer, id: string): seq<real> {
    if Counted(pr, r) && r.id == id && ReviewTime(pr, threads, r).Some? then [ReviewTime(pr, threads, r).value] else []
  }

  /** The latencies of the counted reviewers of one PR under this id, in reviewer order. */
  function TimesByIn(pr: PullRequest, threads: seq<Thread>, rs: seq<Reviewer>, id: string): seq<real> {
    if rs == [] then []
    else TimesByIn(pr, threads, rs[..|rs| - 1], id) + SampleBy(pr, threads, rs[|rs| - 1], id)
  }

  /** The latencies of all counted reviews under this id, PR by PR. */
  function TimesBy(prs: seq<PullRequest>, threadMap: map<int, seq<Thread>>, id: string): seq<real> {
    if prs == [] then []
    else
      var pr := prs[|prs| - 1];
      TimesBy(prs[..|prs| - 1], threadMap, id) + TimesByIn(pr, ThreadsFor(threadMap, pr.pullRequestId), pr.reviewers, id)
  }

  /** The review count stored under `id`, 0 when there is no entry. */
  function CountUnder(stats: seq<ReviewerStat>, id: string): nat {
    match IndexOf(stats, id)
    case None => 0
    case Some(k) => stats[k].reviewCount
  }

  /** The latencies stored under `id`, none when there is no entry. */
  function TimesUnder(stats: seq<ReviewerStat>, id: string): seq<real> {
    match IndexOf(stats, id)
    case None => []
    case Some(k) => stats[k].firstReviewTimes
  }

  /** Updating entries without changing their ids leaves every lookup where it was. */
  lemma {:induction false} IndexOfSameIds(a: seq<ReviewerStat>, b: seq<ReviewerStat>, id: string)
    requires |a| == |b| && forall k :: 0 <= k < |a| ==> a[k].id == b[k].id
    ensures IndexOf(a, id) == IndexOf(b, id)
  {
    if a != [] {
      IndexOfSameIds(a[..|a| - 1], b[..|b| - 1], id);
    }
  }

  lemma RecordEntry(stats: seq<ReviewerStat>, pr: PullRequest, threads: seq<Thread>, r: Reviewer, id: string)
    ensures CountUnder(Record(stats, pr, threads, r), id)
            == CountUnder(stats, id) + (if Counted(pr, r) && r.id == id then 1 else 0)
    ensures TimesUnder(Record(stats, pr, threads, r), id) == TimesUnder(stats, id) + SampleBy(pr, threads, r, id)
  {
    if Counted(pr, r) {
      var t := ReviewTime(pr, threads, r);
      var after := Record(stats, pr, threads, r);
      match IndexOf(stats, r.id)
      case None =>
        assert after == stats + [Bump(ReviewerStat(r.id, r.displayName, 0, []), t)];
        assert after[..|after| - 1] == stats;
      case Some(k) =>
        assert after == stats[k := Bump(stats[k], t)];
        IndexOfSameIds(stats, after, id);
    }
  }

  lemma {:induction false} RecordAllEntry(stats: seq<ReviewerStat>, pr: PullRequest, threads: seq<Thread>, rs: seq<Reviewer>, id: string)
    ensures CountUnder(RecordAll(stats, pr, threads, rs), id) == CountUnder(stats, id) + ReviewsByIn(pr, rs, id)
    ensures TimesUnder(RecordAll(stats, pr, threads, rs), id) == TimesUnder(stats, id) + TimesByIn(pr, threads, rs, id)
  {
    if rs != [] {
      var prefix := rs[..|rs| - 1];
      RecordAllEntry(stats, pr, threads, prefix, id);
      RecordEntry(RecordAll(stats, pr, threads, prefix), pr, threads, rs[|rs| - 1], id);
      assert TimesUnder(stats, id) + TimesByIn(pr, threads, prefix, id) + SampleBy(pr, threads, rs[|rs| - 1], id)
             == TimesUnder(stats, id) + TimesByIn(pr, threads, rs, id);
    }
  }

  lemma {:induction false} StatsEntries(prs: seq<PullRequest>, threadMap: map<int, seq<Thread>>, id: string)
    ensures CountUnder(StatsOf(prs, threadMap), id) == ReviewsBy(prs, id)
    ensures TimesUnder(StatsOf(prs, threadMap), id) == TimesBy(prs, threadMap, id)
  {
    if prs != [] {
      var pr := prs[|prs| - 1];
      StatsEntries(prs[..|prs| - 1], threadMap, id);
      RecordAllEntry(StatsOf(prs[..|prs| - 1], threadMap), pr, ThreadsFor(threadMap, pr.pullRequestId), pr.reviewers, id);
    }
  }

  /** A reviewer has an entry exactly when some counted pair has their id; its count is the
      number of those pairs and its latencies are theirs, PR by PR and in reviewer order,
      leaving out the reviewers with no vote update at or after the PR's creation. */
  lemma StatsEntry(prs: seq<PullRequest>, threadMap: map<int, seq<Thread>>, id: string)
    ensures var stats := StatsOf(prs, threadMap);
      && (IndexOf(stats, id).None? <==> ReviewsBy(prs, id) == 0)
      && (IndexOf(stats, id).Some? ==>
            && stats[IndexOf(stats, id).value].reviewCount == ReviewsBy(prs, id)
            && stats[IndexOf(stats, id).value].firstReviewTimes == TimesBy(prs, threadMap, id))
  {
    StatsEntries(prs, threadMap, id);
    StatsWellFormed(prs, threadMap);
  }

  // ---------------------------------------------------------------------------
  // The distribution
  // ---------------------------------------------------------------------------

  datatype DistEntry = DistEntry(name: string, reviewCount: nat, avgTimeToReviewHours: Option<real>)

  /** One entry of `reviewerDistribution`: the average is the mean of the latencies, null
      when there are none. */
  function ToEntry(e: ReviewerStat): DistEntry {
    DistEntry(e.name, e.reviewCount, Mean(e.firstReviewTimes))
  }

  function Entries(stats: seq<ReviewerStat>): (es: seq<DistEntry>)
    ensures |es| == |stats| && forall k :: 0 <= k < |stats| ==> es[k] == ToEntry(stats[k])
  {
    if stats == [] then [] else [ToEntry(stats[0])] + Entries(stats[1..])
  }

  function EntryCount(e: DistEntry): nat { e.reviewCount }

  /** `(a, b) => b.reviewCount - a.reviewCount`. */
  function ByCountDesc(a: DistEntry, b: DistEntry): bool { a.reviewCount >= b.reviewCount }

  /** `reviewerDistribution`. */
  function Distribution(prs: seq<PullRequest>, threadMap: map<int, seq<Thread>>): seq<DistEntry> {
    SortBy(Entries(StatsOf(prs, threadMap)), ByCountDesc)
  }

  lemma {:induction false} EntriesSum(stats: seq<ReviewerStat>)
    ensures SumBy(Entries(stats), EntryCount) == SumBy(stats, ReviewCountOf)
  {
    if stats != [] {
      EntriesSum(stats[1..]);
    }
  }

  /** The distribution is the table's entries reordered by non-increasing review count, its
      counts add up to the counted (PR, reviewer) pairs, and each entry comes from one table entry, so it has at
      least one review and a null average exactly when it has no latency sample. */
  lemma DistributionSpec(prs: seq<PullRequest>, threadMap: map<int, seq<Thread>>)
    ensures var d := Distribution(prs, threadMap);
      && Sorted(d, ByCountDesc)
      && multiset(d) == multiset(Entries(StatsOf(prs, threadMap)))
      && SumBy(d, EntryCount) == CountedPairs(prs)
      && |d| == |StatsOf(prs, threadMap)|
      && forall i :: 0 <= i < |d| ==>
           (exists k :: 0 <= k < |StatsOf(prs, threadMap)| && d[i] == ToEntry(StatsOf(prs, threadMap)[k]))
  {
    var stats := StatsOf(prs, threadMap);
    var es := Entries(stats);
    var d := SortBy(es, ByCountDesc);
    SortBySorted(es, ByCountDesc);
    SumBySortBy(es, ByCountDesc, EntryCount);
    EntriesSum(stats);
    StatsSum(prs, threadMap);
    forall i | 0 <= i < |d| ensures exists k :: 0 <= k < |stats| && d[i] == ToEntry(stats[k]) {
      SortByMembers(es, ByCountDesc, d[i]);
      var k :| 0 <= k < |es| && es[k] == d[i];
    }
  }

  /** The entries of a well-formed table: a null average exactly when there is no sample,
      and a non-negative average otherwise. */
  lemma EntryAverage(e: ReviewerStat)
    requires |e.firstReviewTimes| <= e.reviewCount
    requires forall m :: 0 <= m < |e.firstReviewTimes| ==> e.firstReviewTimes[m] >= 0.0
    ensures ToEntry(e).avgTimeToReviewHours.None? <==> e.firstReviewTimes == []
    ensures ToEntry(e).avgTimeToReviewHours.Some? ==> ToEntry(e).avgTimeToReviewHours.value >= 0.0
  {
    if e.firstReviewTimes != [] {
      NonNegativeStats(e.firstReviewTimes);
    }
  }

  // ---------------------------------------------------------------------------
  // Absent reviewers
  // ---------------------------------------------------------------------------

  /** A non-empty id that created some PR. */
  predicate IsCreator(prs: seq<PullRequest>, id: string) {
    id != "" && exists i :: 0 <= i < |prs| && CreatorId(prs[i]) == Some(id)
  }

  /** `new Set(prs.map(pr => pr.createdBy?.id).filter(Boolean))`, in first-seen order. */
  function CreatorIds(prs: seq<PullRequest>): (ids: seq<string>)
    ensures forall a, b :: 0 <= a < b < |ids| ==> ids[a] != ids[b]
    ensures forall id :: id in ids <==> IsCreator(prs, id)
  {
    if prs == [] then []
    else
      var prefix := prs[..|prs| - 1];
      var ids := CreatorIds(prefix);
      var c := CreatorId(prs[|prs| - 1]);
      assert forall i :: 0 <= i < |prefix| ==> prefix[i] == prs[i];
      assert forall id :: IsCreator(prs, id) <==> IsCreator(prefix, id) || (c == Some(id) && id != "");
      if c.Some? && c.value != "" && c.value !in ids then ids + [c.value] else ids
  }

  /** `prCreatorNames[id]`: the display name on the last PR the id created ("" for none). */
  function CreatorName(prs: seq<PullRequest>, id: string): string {
    if prs == [] then ""
    else
      var pr := prs[|prs| - 1];
      if CreatorId(pr) == Some(id) && id != "" then pr.createdBy.value.displayName
      else CreatorName(prs[..|prs| - 1], id)
  }

  /** `[...prCreatorIds].filter(id => !activeReviewerIds.has(id)).map(id => prCreatorNames[id]).filter(Boolean)`. */
  function AbsentFrom(ids: seq<string>, prs: seq<PullRequest>, stats: seq<ReviewerStat>): (names: seq<string>)
    ensures forall n :: n in names ==> exists k :: 0 <= k < |ids| && !HasId(stats, ids[k])
                                                  && CreatorName(prs, ids[k]) == n && n != ""
    ensures forall k :: 0 <= k < |ids| && !HasId(stats, ids[k]) && CreatorName(prs, ids[k]) != ""
                        ==> CreatorName(prs, ids[k]) in names
  {
    if ids == [] then []
    else
      var rest := AbsentFrom(ids[..|ids| - 1], prs, stats);
      var id := ids[|ids| - 1];
      assert forall k :: 0 <= k < |ids| - 1 ==> ids[k] == ids[..|ids| - 1][k];
      if !HasId(stats, id) && CreatorName(prs, id) != "" then rest + [CreatorName(prs, id)] else rest
  }

  function AbsentReviewers(prs: seq<PullRequest>, threadMap: map<int, seq<Thread>>): seq<string> {
    AbsentFrom(CreatorIds(prs), prs, StatsOf(prs, threadMap))
  }

  /** A creator is reported absent (by display name) when no PR counted a review of theirs,
      and every name reported belongs to such a creator. */
  lemma AbsentReviewersSpec(prs: seq<PullRequest>, threadMap: map<int, seq<Thread>>)
    ensures forall id :: IsCreator(prs, id) && !HasReviewed(prs, id) && CreatorName(prs, id) != ""
                         ==> CreatorName(prs, id) in AbsentReviewers(prs, threadMap)
    ensures forall n :: n in AbsentReviewers(prs, threadMap) ==>
              n != "" && exists id :: IsCreator(prs, id) && !HasReviewed(prs, id) && CreatorName(prs, id) == n
  {
    var ids := CreatorIds(prs);
    var stats := StatsOf(prs, threadMap);
    forall id | IsCreator(prs, id) && !HasReviewed(prs, id) && CreatorName(prs, id) != ""
      ensures CreatorName(prs, id) in AbsentReviewers(prs, threadMap)
    {
      StatsIds(prs, threadMap, id);
      var k :| 0 <= k < |ids| && ids[k] == id;
    }
    forall n | n in AbsentReviewers(prs, threadMap)
      ensures n != "" && exists id :: IsCreator(prs, id) && !HasReviewed(prs, id) && CreatorName(prs, id) == n
    {
      var k :| 0 <= k < |ids| && !HasId(stats, ids[k]) && CreatorName(prs, ids[k]) == n && n != "";
      StatsIds(prs, threadMap, ids[k]);
      assert ids[k] in ids;
    }
  }
}
