/** Stale PR detection in `main` of scripts/pr-metrics.mjs: active PRs idle for longer than
    the threshold, newest-idle last. */
module PrStale {
  import opened Wrappers
  import opened Seqs
  import opened PrModel

  datatype StalePr = StalePr(title: string, repo: string, daysStale: int, createdBy: string, url: string)

  /** `value || 'unknown'`. */
  function OrUnknown(s: string): (r: string)
    ensures r != "" && (s != "" ==> r == s)
  {
    if s == "" then "unknown" else s
  }

  predicate StaleIn(threadMap: map<int, seq<Thread>>, pr: PullRequest, staleDays: int, now: int) {
    IsStale(pr, ThreadsFor(threadMap, pr.pullRequestId), staleDays, now)
  }

  /** The output record of one stale PR. */
  function StaleEntry(threadMap: map<int, seq<Thread>>, pr: PullRequest, now: int): StalePr {
    StalePr(pr.title, OrUnknown(pr.repoName),
            DaysStale(pr, ThreadsFor(threadMap, pr.pullRequestId), now),
            OrUnknown(if pr.createdBy.Some? then pr.createdBy.value.displayName else ""),
            pr.url)
  }

  /** `activePrs.filter(isStale).map(...)`, before sorting. */
  function StaleOf(prs: seq<PullRequest>, threadMap: map<int, seq<Thread>>, staleDays: int, now: int): (r: seq<StalePr>)
    ensures |r| <= |prs|
  {
    if prs == [] then []
    else
      var pr := prs[0];
      (if pr.status == Active && StaleIn(threadMap, pr, staleDays, now) then [StaleEntry(threadMap, pr, now)] else [])
      + StaleOf(prs[1..], threadMap, staleDays, now)
  }

  function ByDaysDesc(a: StalePr, b: StalePr): bool { a.daysStale >= b.daysStale }

  /** `stalePrs`. */
  function StalePrs(prs: seq<PullRequest>, threadMap: map<int, seq<Thread>>, staleDays: int, now: int): seq<StalePr> {
    SortBy(StaleOf(prs, threadMap, staleDays, now), ByDaysDesc)
  }

  lemma StaleOfMembers(prs: seq<PullRequest>, threadMap: map<int, seq<Thread>>, staleDays: int, now: int, e: StalePr)
    ensures e in StaleOf(prs, threadMap, staleDays, now) <==>
      exists i :: 0 <= i < |prs| && StaleIn(threadMap, prs[i], staleDays, now) && e == StaleEntry(threadMap, prs[i], now)
  {
    if e in StaleOf(prs, threadMap, staleDays, now) {
      var i := StaleOfSource(prs, threadMap, staleDays, now, e);
    }
    if exists i :: 0 <= i < |prs| && StaleIn(threadMap, prs[i], staleDays, now) && e == StaleEntry(threadMap, prs[i], now) {
      var i :| 0 <= i < |prs| && StaleIn(threadMap, prs[i], staleDays, now) && e == StaleEntry(threadMap, prs[i], now);
      StaleOfHas(prs, threadMap, staleDays, now, i);
    }
  }

  /** Every listed entry is the entry of a stale PR. */
  lemma {:induction false} StaleOfSource(prs: seq<PullRequest>, threadMap: map<int, seq<Thread>>, staleDays: int, now: int, e: StalePr)
    returns (i: nat)
    requires e in StaleOf(prs, threadMap, staleDays, now)
    ensures i < |prs| && StaleIn(threadMap, prs[i], staleDays, now) && e == StaleEntry(threadMap, prs[i], now)
  {
    var tail := prs[1..];
    var pr := prs[0];
    if pr.status == Active && StaleIn(threadMap, pr, staleDays, now) && e == StaleEntry(threadMap, pr, now) {
      i := 0;
    } else {
      assert e in StaleOf(tail, threadMap, staleDays, now);
      var j := StaleOfSource(tail, threadMap, staleDays, now, e);
      assert tail[j] == prs[j + 1];
      i := j + 1;
    }
  }

  /** The entry of every stale PR is listed. */
  lemma {:induction false} StaleOfHas(prs: seq<PullRequest>, threadMap: map<int, seq<Thread>>, staleDays: int, now: int, i: nat)
    requires i < |prs| && StaleIn(threadMap, prs[i], staleDays, now)
    ensures StaleEntry(threadMap, prs[i], now) in StaleOf(prs, threadMap, staleDays, now)
  {
    var e := StaleEntry(threadMap, prs[i], now);
    var tail := prs[1..];
    var head := if prs[0].status == Active && StaleIn(threadMap, prs[0], staleDays, now)
                then [StaleEntry(threadMap, prs[0], now)] else [];
    assert StaleOf(prs, threadMap, staleDays, now) == head + StaleOf(tail, threadMap, staleDays, now);
    if i == 0 {
      assert e in head;
    } else {
      assert tail[i - 1] == prs[i];
      StaleOfHas(tail, threadMap, staleDays, now, i - 1);
      assert e in StaleOf(tail, threadMap, staleDays, now);
    }
  }

  /** The stale list is sorted by non-increasing days stale; it holds exactly the entries of
      the PRs that are active and idle beyond the threshold; and each of them has been idle
      for at least the threshold in whole days. */
  lemma StalePrsSpec(prs: seq<PullRequest>, threadMap: map<int, seq<Thread>>, staleDays: int, now: int)
    ensures Sorted(StalePrs(prs, threadMap, staleDays, now), ByDaysDesc)
    ensures |StalePrs(prs, threadMap, staleDays, now)| <= |prs|
    ensures forall e :: e in StalePrs(prs, threadMap, staleDays, now) <==>
      exists i :: 0 <= i < |prs| && prs[i].status == Active && StaleIn(threadMap, prs[i], staleDays, now)
                  && e == StaleEntry(threadMap, prs[i], now)
    ensures forall e :: e in StalePrs(prs, threadMap, staleDays, now) ==> e.daysStale >= staleDays
  {
    var l := StaleOf(prs, threadMap, staleDays, now);
    SortBySorted(l, ByDaysDesc);
    forall e ensures e in StalePrs(prs, threadMap, staleDays, now) <==> e in l {
      SortByMembers(l, ByDaysDesc, e);
    }
    forall e ensures e in l <==>
      exists i :: 0 <= i < |prs| && prs[i].status == Active && StaleIn(threadMap, prs[i], staleDays, now)
                  && e == StaleEntry(threadMap, prs[i], now)
    {
      StaleOfMembers(prs, threadMap, staleDays, now, e);
    }
    forall e | e in l ensures e.daysStale >= staleDays {
      StaleOfMembers(prs, threadMap, staleDays, now, e);
      var i :| 0 <= i < |prs| && StaleIn(threadMap, prs[i], staleDays, now) && e == StaleEntry(threadMap, prs[i], now);
      StaleDaysAtLeastThreshold(prs[i], ThreadsFor(threadMap, prs[i].pullRequestId), staleDays, now);
    }
  }

  /** An active PR created ten days ago with no threads is stale under a three-day threshold,
      with the creation time as its last activity, and is reported as ten days stale. */
  lemma TenDayOldPrIsStale(creator: Identity)
    ensures var pr := PullRequest(1, "Add feature", Active, 0, None, Some(creator), "web", [], "https://example/pr/1");
            StalePrs([pr], map[], 3, 10 * MsPerDay)
              == [StalePr("Add feature", "web", 10, OrUnknown(creator.displayName), "https://example/pr/1")]
  {
    var pr := PullRequest(1, "Add feature", Active, 0, None, Some(creator), "web", [], "https://example/pr/1");
    assert ThreadsFor(map[], 1) == [];
    assert LastActivity(pr, []) == 0;
    assert IdleDays(pr, [], 10 * MsPerDay) == 10.0;
    assert DaysStale(pr, [], 10 * MsPerDay) == 10;
    assert StaleOf([pr], map[], 3, 10 * MsPerDay) == [StaleEntry(map[], pr, 10 * MsPerDay)];
  }
}
