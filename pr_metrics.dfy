/** The run of `main` in scripts/pr-metrics.mjs: resolve the repository filter, fetch PRs
    through the window fallback, fetch their threads, and derive the summary and the five
    metrics. The HTTP calls are oracles; the clock is the parameter `now`. */
module PrMetrics {
  import opened Wrappers
  import opened Seqs
  import opened Repos
  import opened PrModel
  import opened PrRetrieval
  import opened ThreadRetrieval
  import opened PrLatency
  import opened PrReviewers
  import opened PrStale
  import opened PrBottleneck

  // ---------------------------------------------------------------------------
  // Summary
  // ---------------------------------------------------------------------------

  /** `prs.filter(p => p.status === st).length`. */
  function StatusCount(prs: seq<PullRequest>, st: Status): nat {
    Count(prs, HasStatus(st))
  }

  function HasStatus(st: Status): PullRequest -> bool {
    (pr: PullRequest) => pr.status == st
  }

  lemma {:induction false} ActiveAndCompletedWithinTotal(prs: seq<PullRequest>)
    ensures StatusCount(prs, Active) + StatusCount(prs, Completed) <= |prs|
  {
    if prs != [] {
      ActiveAndCompletedWithinTotal(prs[..|prs| - 1]);
    }
  }

  predicate HasRepo(prs: seq<PullRequest>, name: string) {
    exists i :: 0 <= i < |prs| && prs[i].repoName == name
  }

  /** `[...new Set(prs.map(pr => pr.repository?.name).filter(Boolean))]`: the distinct
      non-empty repository names in order of first appearance. */
  function RepoNames(prs: seq<PullRequest>): (names: seq<string>)
    ensures Distinct(names)
    ensures forall n :: n in names <==> n != "" && HasRepo(prs, n)
  {
    if prs == [] then []
    else
      var prefix := prs[..|prs| - 1];
      var names := RepoNames(prefix);
      var n := prs[|prs| - 1].repoName;
      assert forall i :: 0 <= i < |prefix| ==> prefix[i] == prs[i];
      assert forall m :: HasRepo(prs, m) <==> HasRepo(prefix, m) || m == n;
      if n != "" && n !in names then names + [n] else names
  }

  datatype Summary = Summary(
    totalPrs: nat,
    activePrs: nat,
    completedPrs: nat,
    reposAnalyzed: nat,
    repoNames: seq<string>,
    daysCovered: Window,
    capHit: bool)

  function SummaryOf(prs: seq<PullRequest>, daysCovered: Window, capHit: bool): (s: Summary)
    ensures s.activePrs + s.completedPrs <= s.totalPrs
    ensures s.reposAnalyzed == |s.repoNames| <= s.totalPrs
  {
    ActiveAndCompletedWithinTotal(prs);
    RepoNamesBounded(prs);
    var names := RepoNames(prs);
    Summary(|prs|, StatusCount(prs, Active), StatusCount(prs, Completed), |names|, names, daysCovered, capHit)
  }

  lemma {:induction false} RepoNamesBounded(prs: seq<PullRequest>)
    ensures |RepoNames(prs)| <= |prs|
  {
    if prs != [] {
      RepoNamesBounded(prs[..|prs| - 1]);
    }
  }

  /** Only active PRs can be stale. */
  lemma {:induction false} StaleAtMostActive(prs: seq<PullRequest>, threadMap: map<int, seq<Thread>>, staleDays: int, now: int)
    ensures |StalePrs(prs, threadMap, staleDays, now)| <= StatusCount(prs, Active)
  {
    if prs != [] {
      StaleAtMostActive(prs[1..], threadMap, staleDays, now);
      CountCons(prs[0], prs[1..], HasStatus(Active));
      assert prs == [prs[0]] + prs[1..];
    }
  }

  // ---------------------------------------------------------------------------
  // The whole result
  // ---------------------------------------------------------------------------

  datatype Metrics = Metrics(
    summary: Summary,
    cycleTimes: CycleTimes,
    timeToFirstReview: FirstReviewReport,
    reviewerDistribution: seq<DistEntry>,
    absentReviewers: seq<string>,
    stalePrs: seq<StalePr>,
    bottleneck: Option<Bottleneck>,
    staleThresholdDays: int,
    healthyReviewHours: int)

  datatype RunError =
    | ReposUnavailable
    | RepoNotFound(notFound: NotFound)
    | PrFetchFailed(failure: FetchError)

  function PrIds(prs: seq<PullRequest>): (ids: seq<int>)
    ensures |ids| == |prs| && forall k :: 0 <= k < |prs| ==> ids[k] == prs[k].pullRequestId
  {
    if prs == [] then [] else [prs[0].pullRequestId] + PrIds(prs[1..])
  }

  /** The metrics derived from the fetched PRs and their thread map. */
  function MetricsOf(f: Fetched<PullRequest>, threadMap: map<int, seq<Thread>>, staleDays: int, now: int): Metrics {
    var prs := f.prs;
    var dist := Distribution(prs, threadMap);
    Metrics(SummaryOf(prs, f.daysCovered, f.capHit),
            CycleTimesOf(prs),
            FirstReviewReportOf(FirstReviewSamples(prs, threadMap), MissingCount(prs, threadMap)),
            dist,
            AbsentReviewers(prs, threadMap),
            StalePrs(prs, threadMap, staleDays, now),
            Decide(dist),
            staleDays,
            HealthyThresholdHours)
  }

  predicate FilterGiven(filter: Option<string>) { filter.Some? && filter.value != [] }

  /** The repository id the PR fetch is scoped to: none without a filter, otherwise the id
      of the first repository the filter names. */
  function RepoIdOf(repos: Option<seq<Repo>>, filter: Option<string>): Option<string> {
    if !FilterGiven(filter) || repos.None? then None
    else match FindRepo(repos.value, filter.value)
      case None => None
      case Some(k) => Some(repos.value[k].id)
  }

  /** The repository resolution of `main`: the repository list is only requested when a
      filter is given; a failed request or an unknown repository is an error, and otherwise
      the fetch is scoped to the id of the first repository the filter names. */
  function RepoScope(repos: Option<seq<Repo>>, filter: Option<string>): (r: Result<Option<string>, RunError>)
    ensures r.Ok? ==> r.value == RepoIdOf(repos, filter)
    ensures r.Err? <==> FilterGiven(filter) && (repos.None? || FindRepo(repos.value, filter.value).None?)
  {
    if !FilterGiven(filter) then Ok(None)
    else if repos.None? then Err(ReposUnavailable)
    else match ResolveRepoId(repos.value, filter)
      case Err(nf) => Err(RepoNotFound(nf))
      case Ok(id) => Ok(id)
  }

  /** What a run yields: the repository list is only requested when a filter is given; a
      failed request, an unknown repository or a failed PR page ends the run with that
      error; otherwise the metrics of the accepted window. */
  function RunResult(repos: Option<seq<Repo>>, filter: Option<string>,
                     pages: Option<string> -> PageFetch<PullRequest>, daysOverride: Option<int>,
                     threads: ThreadFetch<Thread>, staleDays: int, now: int): Result<Metrics, RunError>
  {
    match RepoScope(repos, filter)
    case Err(e) => Err(e)
    case Ok(id) =>
      match FallbackFrom(pages(id), daysOverride, Windows(daysOverride), 0)
      case Err(fe) => Err(PrFetchFailed(fe))
      case Ok(f) => Ok(MetricsOf(f, ThreadsFrom(PrIds(f.prs), threads, 0, map[]), staleDays, now))
  }

  /** `main`, step by step. */
  method Run(repos: Option<seq<Repo>>, filter: Option<string>,
             pages: Option<string> -> PageFetch<PullRequest>, daysOverride: Option<int>,
             threads: ThreadFetch<Thread>, staleDays: int, now: int)
    returns (r: Result<Metrics, RunError>)
    ensures r == RunResult(repos, filter, pages, daysOverride, threads, staleDays, now)
  {
    var repoId: Option<string> := None;
    if FilterGiven(filter) {
      if repos.None? {
        return Err(ReposUnavailable);
      }
      var k := FindRepo(repos.value, filter.value);
      if k.None? {
        return Err(RepoNotFound(NotFound(filter.value, Names(repos.value))));
      }
      repoId := Some(repos.value[k.value].id);
    }
    var fetched := FetchPrsWithFallback(pages(repoId), daysOverride);
    if fetched.Err? {
      return Err(PrFetchFailed(fetched.error));
    }
    var threadMap := FetchAllThreads(PrIds(fetched.value.prs), threads);
    var m := ComputeMetrics(fetched.value, threadMap, staleDays, now);
    r := Ok(m);
  }

  /** The metrics block of `main`, once the PRs and their threads are in. */
  method ComputeMetrics(f: Fetched<PullRequest>, threadMap: map<int, seq<Thread>>, staleDays: int, now: int)
    returns (m: Metrics)
    ensures m == MetricsOf(f, threadMap, staleDays, now)
  {
    var prs := f.prs;
    var summary := SummaryOf(prs, f.daysCovered, f.capHit);
    var cycleTimes := CycleTimesOf(prs);
    var times, missingCount := FirstReviewTimes(prs, threadMap);
    var timeToFirstReview := FirstReviewReportOf(times, missingCount);
    var stats := BuildReviewerStats(prs, threadMap);
    var dist := SortBy(Entries(stats), ByCountDesc);
    var absent := AbsentFrom(CreatorIds(prs), prs, stats);
    var stale := StalePrs(prs, threadMap, staleDays, now);
    var bottleneck := FindBottleneck(dist);
    m := Metrics(summary, cycleTimes, timeToFirstReview, dist, absent, stale, bottleneck,
                 staleDays, HealthyThresholdHours);
  }

  // ---------------------------------------------------------------------------
  // Properties of a run
  // ---------------------------------------------------------------------------

  /** The run fails exactly when the repository list is needed and unavailable, the filter
      names no repository (reporting every available name), or a PR page request fails;
      the PRs are fetched project-wide without a filter and for the first repository the
      filter names with one. */
  lemma RunErrors(repos: Option<seq<Repo>>, filter: Option<string>,
                  pages: Option<string> -> PageFetch<PullRequest>, daysOverride: Option<int>,
                  threads: ThreadFetch<Thread>, staleDays: int, now: int)
    ensures var r := RunResult(repos, filter, pages, daysOverride, threads, staleDays, now);
      && (r == Err(ReposUnavailable) <==> FilterGiven(filter) && repos.None?)
      && (r.Err? && r.error.RepoNotFound? <==>
            FilterGiven(filter) && repos.Some? && FindRepo(repos.value, filter.value).None?)
      && (r.Err? && r.error.RepoNotFound? ==> r.error.notFound.availableRepos == Names(repos.value))
      && (!FilterGiven(filter) ==>
            (r.Err? <==> FallbackFrom(pages(None), daysOverride, Windows(daysOverride), 0).Err?))
      && (FilterGiven(filter) && repos.Some? && FindRepo(repos.value, filter.value).Some? ==>
            var id := repos.value[FindRepo(repos.value, filter.value).value].id;
            (r.Err? <==> FallbackFrom(pages(Some(id)), daysOverride, Windows(daysOverride), 0).Err?))
      && (r.Err? && r.error.PrFetchFailed? ==>
            r.error.failure == FallbackFrom(pages(RepoIdOf(repos, filter)), daysOverride, Windows(daysOverride), 0).error)
  {
  }

  /** A successful run is the metrics of the scoped fetch's accepted window and the thread
      map of its PRs. */
  lemma RunSucceeded(repos: Option<seq<Repo>>, filter: Option<string>,
                     pages: Option<string> -> PageFetch<PullRequest>, daysOverride: Option<int>,
                     threads: ThreadFetch<Thread>, staleDays: int, now: int)
    requires RunResult(repos, filter, pages, daysOverride, threads, staleDays, now).Ok?
    ensures var f := FallbackFrom(pages(RepoIdOf(repos, filter)), daysOverride, Windows(daysOverride), 0);
      && f.Ok?
      && RunResult(repos, filter, pages, daysOverride, threads, staleDays, now).value
         == MetricsOf(f.value, ThreadsFrom(PrIds(f.value.prs), threads, 0, map[]), staleDays, now)
  {
  }

  /** A successful run reports the PRs of the accepted window of the scoped fetch: the
      summary counts them and carries that window and its cap flag, its counts are
      consistent, and the thresholds are the ones in force. */
  lemma RunSummary(repos: Option<seq<Repo>>, filter: Option<string>,
                   pages: Option<string> -> PageFetch<PullRequest>, daysOverride: Option<int>,
                   threads: ThreadFetch<Thread>, staleDays: int, now: int)
    requires RunResult(repos, filter, pages, daysOverride, threads, staleDays, now).Ok?
    ensures var m := RunResult(repos, filter, pages, daysOverride, threads, staleDays, now).value;
      && m.summary.activePrs + m.summary.completedPrs <= m.summary.totalPrs
      && m.summary.reposAnalyzed == |m.summary.repoNames|
      && Distinct(m.summary.repoNames)
      && m.timeToFirstReview.prCount + m.timeToFirstReview.missingCount <= m.summary.totalPrs
      && m.staleThresholdDays == staleDays
      && m.healthyReviewHours == 4
      && |m.stalePrs| <= m.summary.activePrs
      && var f := FallbackFrom(pages(RepoIdOf(repos, filter)), daysOverride, Windows(daysOverride), 0);
         && f.Ok?
         && m.summary.totalPrs == |f.value.prs|
         && m.summary.daysCovered == f.value.daysCovered
         && m.summary.capHit == f.value.capHit
  {
    RunSucceeded(repos, filter, pages, daysOverride, threads, staleDays, now);
    var f := FallbackFrom(pages(RepoIdOf(repos, filter)), daysOverride, Windows(daysOverride), 0).value;
    var threadMap := ThreadsFrom(PrIds(f.prs), threads, 0, map[]);
    FirstReviewReportSpec(f.prs, threadMap);
    StaleAtMostActive(f.prs, threadMap, staleDays, now);
  }
}
