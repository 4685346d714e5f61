/** Cycle time and time to first review, as computed in `main` of scripts/pr-metrics.mjs. */
module PrLatency {
  import opened Wrappers
  import opened Seqs
  import opened Stats
  import opened PrModel

  const HealthyThresholdHours: int := 4

  // ---------------------------------------------------------------------------
  // Cycle time
  // ---------------------------------------------------------------------------

  /** A PR contributes a cycle-time sample when it is completed, has a closing time, and did
      not close before it was created. */
  predicate HasCycleSample(pr: PullRequest) {
    pr.status == Completed && pr.closedDate.Some? && pr.closedDate.value - pr.creationDate >= 0
  }

  /** Hours from creation to closing. */
  function CycleHoursOf(pr: PullRequest): real
    requires pr.closedDate.Some?
  {
    Hours(pr.closedDate.value - pr.creationDate)
  }

  /** `completedPrs.filter(closedDate).map(hours).filter(h => h >= 0)`. */
  function CycleTimeHours(prs: seq<PullRequest>): (hs: seq<real>)
    ensures |hs| == Count(prs, HasCycleSample)
    ensures forall i :: 0 <= i < |hs| ==> hs[i] >= 0.0
  {
    if prs == [] then []
    else
      var pr := prs[|prs| - 1];
      CycleTimeHours(prs[..|prs| - 1]) + (if HasCycleSample(pr) then [CycleHoursOf(pr)] else [])
  }

  /** The i-th cycle-time sample is the hours from creation to closing of the i-th PR that
      is completed, has a closing time and did not close before it was created. */
  lemma {:induction false} CycleTimeSamples(prs: seq<PullRequest>)
    ensures var hs := CycleTimeHours(prs);
      var done := Filter(prs, HasCycleSample);
      && |hs| == |done|
      && forall i :: 0 <= i < |hs| ==> HasCycleSample(done[i]) && hs[i] == CycleHoursOf(done[i])
  {
    if prs != [] {
      var prefix := prs[..|prs| - 1];
      CycleTimeSamples(prefix);
      var done := Filter(prs, HasCycleSample);
      forall i | 0 <= i < |done| ensures HasCycleSample(done[i]) {
        assert done[i] in done;
      }
    }
  }

  datatype CycleTimes = CycleTimes(meanHours: Option<real>, medianHours: Option<real>, prCount: nat)

  function CycleTimesOf(prs: seq<PullRequest>): CycleTimes {
    var hs := CycleTimeHours(prs);
    CycleTimes(Mean(hs), Median(hs), |hs|)
  }

  /** The mean and median are null exactly when no PR contributes a sample, the count is
      the number of contributing PRs, and both statistics are never negative. */
  lemma CycleTimesSpec(prs: seq<PullRequest>)
    ensures var c := CycleTimesOf(prs);
      && c.prCount == Count(prs, HasCycleSample)
      && (c.meanHours.None? <==> c.prCount == 0)
      && (c.medianHours.None? <==> c.prCount == 0)
      && (c.prCount == 0 <==> forall i :: 0 <= i < |prs| ==> !HasCycleSample(prs[i]))
      && (c.meanHours.Some? ==> c.meanHours.value >= 0.0)
      && (c.medianHours.Some? ==> c.medianHours.value >= 0.0)
  {
    var hs := CycleTimeHours(prs);
    if hs != [] {
      NonNegativeStats(hs);
    }
  }

  // ---------------------------------------------------------------------------
  // Time to first review
  // ---------------------------------------------------------------------------

  /** Milliseconds from creation to the first peer vote, or None when there is none. */
  function FirstReviewLatency(pr: PullRequest, threadMap: map<int, seq<Thread>>): Option<int> {
    match FindFirstReviewDate(ThreadsFor(threadMap, pr.pullRequestId), CreatorId(pr))
    case None => None
    case Some(d) => Some(d - pr.creationDate)
  }

  predicate MissingReview(threadMap: map<int, seq<Thread>>, pr: PullRequest) {
    FirstReviewLatency(pr, threadMap).None?
  }

  predicate SampledReview(threadMap: map<int, seq<Thread>>, pr: PullRequest) {
    FirstReviewLatency(pr, threadMap).Some? && FirstReviewLatency(pr, threadMap).value >= 0
  }

  predicate NegativeReview(threadMap: map<int, seq<Thread>>, pr: PullRequest) {
    FirstReviewLatency(pr, threadMap).Some? && FirstReviewLatency(pr, threadMap).value < 0
  }

  /** Whether a PR contributes a first-review sample, as a predicate on PRs. */
  function Sampled(threadMap: map<int, seq<Thread>>): PullRequest -> bool {
    pr => SampledReview(threadMap, pr)
  }

  /** Hours from creation to the first peer vote. */
  function ReviewHoursOf(pr: PullRequest, threadMap: map<int, seq<Thread>>): real
    requires FirstReviewLatency(pr, threadMap).Some?
  {
    Hours(FirstReviewLatency(pr, threadMap).value)
  }

  /** The latencies the loop pushes, in PR order. */
  function FirstReviewSamples(prs: seq<PullRequest>, threadMap: map<int, seq<Thread>>): (hs: seq<real>)
    ensures forall i :: 0 <= i < |hs| ==> hs[i] >= 0.0
  {
    if prs == [] then []
    else
      var pr := prs[|prs| - 1];
      FirstReviewSamples(prs[..|prs| - 1], threadMap)
        + (if SampledReview(threadMap, pr) then [ReviewHoursOf(pr, threadMap)] else [])
  }

  /** One sample per PR whose first peer vote came no earlier than its creation, and the
      i-th sample is the hours from creation to the first peer vote of the i-th such PR. */
  lemma {:induction false} FirstReviewSampleValues(prs: seq<PullRequest>, threadMap: map<int, seq<Thread>>)
    ensures var hs := FirstReviewSamples(prs, threadMap);
      var sampled := Filter(prs, Sampled(threadMap));
      && |hs| == |sampled| == Count(prs, Sampled(threadMap))
      && forall i :: 0 <= i < |hs| ==>
           SampledReview(threadMap, sampled[i]) && hs[i] == ReviewHoursOf(sampled[i], threadMap)
  {
    if prs != [] {
      var prefix := prs[..|prs| - 1];
      FirstReviewSampleValues(prefix, threadMap);
      var sampled := Filter(prs, Sampled(threadMap));
      forall i | 0 <= i < |sampled| ensures SampledReview(threadMap, sampled[i]) {
        assert sampled[i] in sampled;
      }
    }
  }

  /** The number of PRs without a peer vote. */
  function MissingCount(prs: seq<PullRequest>, threadMap: map<int, seq<Thread>>): nat {
    if prs == [] then 0
    else MissingCount(prs[..|prs| - 1], threadMap) + (if MissingReview(threadMap, prs[|prs| - 1]) then 1 else 0)
  }

  /** The number of PRs dropped for a negative latency. */
  function NegativeCount(prs: seq<PullRequest>, threadMap: map<int, seq<Thread>>): nat {
    if prs == [] then 0
    else NegativeCount(prs[..|prs| - 1], threadMap) + (if NegativeReview(threadMap, prs[|prs| - 1]) then 1 else 0)
  }

  /** Extending the PRs seen by one adds that PR's sample or missing mark, if any. */
  lemma FirstReviewStep(prs: seq<PullRequest>, i: nat, threadMap: map<int, seq<Thread>>)
    requires i < |prs|
    ensures FirstReviewSamples(prs[..i + 1], threadMap) == FirstReviewSamples(prs[..i], threadMap)
      + (if SampledReview(threadMap, prs[i]) then [ReviewHoursOf(prs[i], threadMap)] else [])
    ensures MissingCount(prs[..i + 1], threadMap) == MissingCount(prs[..i], threadMap)
      + (if MissingReview(threadMap, prs[i]) then 1 else 0)
  {
    assert prs[..i + 1][..i] == prs[..i];
  }

  /** The loop over PRs that pushes latencies and counts PRs without a peer vote. */
  method FirstReviewTimes(prs: seq<PullRequest>, threadMap: map<int, seq<Thread>>)
    returns (times: seq<real>, missingCount: nat)
    ensures times == FirstReviewSamples(prs, threadMap)
    ensures missingCount == MissingCount(prs, threadMap)
  {
    times := [];
    missingCount := 0;
    var i := 0;
    while i < |prs|
      invariant i <= |prs|
      invariant times == FirstReviewSamples(prs[..i], threadMap)
      invariant missingCount == MissingCount(prs[..i], threadMap)
    {
      var pr := prs[i];
      FirstReviewStep(prs, i, threadMap);
      var latency := FirstReviewLatency(pr, threadMap);
      if latency.Some? {
        if latency.value >= 0 {
          times := times + [Hours(latency.value)];
        }
      } else {
        missingCount := missingCount + 1;
      }
      i := i + 1;
    }
    assert prs[..i] == prs;
  }

  datatype FirstReviewReport = FirstReviewReport(
    meanHours: Option<real>,
    medianHours: Option<real>,
    prCount: nat,
    missingCount: nat,
    aboveThresholdCount: nat,
    healthyThresholdHours: int)

  predicate AboveThreshold(h: real) { h > HealthyThresholdHours as real }

  function FirstReviewReportOf(times: seq<real>, missingCount: nat): FirstReviewReport {
    FirstReviewReport(Mean(times), Median(times), |times|, missingCount,
                      Count(times, AboveThreshold), HealthyThresholdHours)
  }

  /** Every PR is exactly one of: missing a peer vote, sampled, or dropped for a negative
      latency; so samples and missing PRs together never exceed the PRs. */
  lemma {:induction false} FirstReviewPartition(prs: seq<PullRequest>, threadMap: map<int, seq<Thread>>)
    ensures |FirstReviewSamples(prs, threadMap)| + MissingCount(prs, threadMap) + NegativeCount(prs, threadMap) == |prs|
  {
    if prs != [] {
      FirstReviewPartition(prs[..|prs| - 1], threadMap);
    }
  }

  /** The report of the loop: sample count plus missing count is at most the PR count, the
      samples above four hours are among the samples, and the statistics are null exactly
      when there is no sample. */
  lemma FirstReviewReportSpec(prs: seq<PullRequest>, threadMap: map<int, seq<Thread>>)
    ensures var r := FirstReviewReportOf(FirstReviewSamples(prs, threadMap),
                                         MissingCount(prs, threadMap));
      && r.prCount + r.missingCount <= |prs|
      && r.aboveThresholdCount <= r.prCount
      && (r.meanHours.None? <==> r.prCount == 0)
      && (r.medianHours.None? <==> r.prCount == 0)
      && r.healthyThresholdHours == 4
  {
    FirstReviewPartition(prs, threadMap);
  }
}
