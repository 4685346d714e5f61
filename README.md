# Azure DevOps insights: a verified model of the metric computations

This project models the computing core of the azure-devops-insights command-line scripts.
Each script reads from the Azure DevOps REST API and writes one JSON report.

- **PR metrics** (`scripts/pr-metrics.mjs`):
  - Resolves an optional `--repo` filter and fetches pull requests in pages of 1000, at most ten pages per window. Without a `--days` override it falls back from the unbounded window to 365 and then 90 days when a window holds 500 or more PRs.
  - Fetches discussion threads in batches of ten. A batch of two or more whose results are all empty is retried once.
  - Derives the summary, the cycle time and the time to first review (4-hour healthy threshold).
  - Derives the reviewer distribution (groups, creators and zero votes excluded) and the creators who never reviewed.
  - Lists stale active PRs and identifies a review bottleneck (`slow`, `concentrated` or `both`).
- **Contributors** (`scripts/contributors.mjs`):
  - Aggregates commits by lower-cased author email. The most recent display name and date are kept.
  - Classifies authors against the default team as active, quiet or former. When team data is unavailable it lists every author.
  - Sorts the three lists and optionally anonymises them.
- **Bugs** (`scripts/bugs.mjs`):
  - Parses the comma-separated type list.
  - Groups open bugs by severity and orders severities: numeric labels by number, ahead of the rest.
  - Computes age statistics and buckets, the five oldest bugs, and the per-assignee distribution with its overload flag.
- **Token masking** (`scripts/config.mjs`): `maskPat`.

API responses are function parameters (oracles). A failed request is `None`, or a rejected outcome for thread requests. The clock is a parameter `now` in milliseconds. Loops that update state in the scripts are methods with loop invariants, proved equal to a specification function. The properties are then proved about those functions.

Modules:

| module | contents |
|---|---|
| `Wrappers` | `Option` and `Result` |
| `Seqs` | counting, filtering, sums, stable sort, code-point string order |
| `Text` | ASCII lower-casing, trim, split, decimal rendering, `parseInt` |
| `Stats` | `mean` and `median` |
| `Config` | `maskPat` |
| `Repos` | repository-name resolution |
| `PrModel` | per-PR helpers |
| `PrRetrieval` | PR paging and window fallback |
| `ThreadRetrieval` | batched thread fetch |
| `PrLatency` | cycle time and first review |
| `PrReviewers` | reviewer distribution and absent reviewers |
| `PrStale` | stale PRs |
| `PrBottleneck` | bottleneck |
| `PrMetrics` | the `main` run |
| `Contributors` | contributor classification |
| `Bugs` | bug aging |

## Model

| member | source | states |
|---|---|---|
| Config.Stars | scripts/config.mjs:28 | `'*'.repeat(n)` is n stars |
| Config.MaskPat | scripts/config.mjs:26-29 | a missing or shorter-than-8 token is `***`; otherwise the mask keeps the length, the first four and the last four characters, and every middle character is `*` |
| Config.MaskPatEightUnchanged | scripts/config.mjs:28 | an eight-character token is shown unmasked |
| Config.MaskPatDependsOnlyOnEnds | scripts/config.mjs:28 | two tokens of equal length with the same four-character ends mask identically, so the middle is never revealed |
| Repos.Names | scripts/pr-metrics.mjs:227 | the available-repos list is every repository name, in order |
| Repos.FindRepo | scripts/pr-metrics.mjs:225 | none iff no repository name matches case-insensitively; otherwise the first match |
| Repos.NarrowRepos | scripts/contributors.mjs:62-76 | no or empty filter keeps all repositories; a filter yields the single first match, or `not_found` with every name |
| Repos.ResolveRepoId | scripts/pr-metrics.mjs:215-238 | a repository id iff a non-empty filter is given, and then it is the id of a matching repository; an error iff a filter matches nothing, listing every name |
| Repos.NameMatchIgnoresCase | scripts/pr-metrics.mjs:225 | lower-casing the filter does not change which repositories match |
| Text.ToLower | scripts/pr-metrics.mjs:225 | keeps the length and lower-cases each character on its own |
| Text.ToLowerIdempotent | scripts/contributors.mjs:106 | lower-casing twice equals lower-casing once |
| Text.TrimStart | scripts/bugs.mjs:62 | a suffix of the input that does not start with white space |
| Text.TrimEnd | scripts/bugs.mjs:62 | a prefix of the input that does not end with white space |
| Text.TrimTrimmed | scripts/bugs.mjs:62 | trimming a trimmed string changes nothing |
| Text.TrimSpec | scripts/bugs.mjs:62 | the trimmed string has no white space at either end and is a contiguous piece of the input |
| Text.Split | scripts/bugs.mjs:62 | `split(',')` returns at least one piece, and no piece holds the separator |
| Text.SplitNoSeparator | scripts/bugs.mjs:62 | a string without the separator splits into itself |
| Text.SplitAfterPiece | scripts/bugs.mjs:62 | a separator after a separator-free piece splits off exactly that piece |
| Text.SplitJoin | scripts/bugs.mjs:62 | splitting undoes joining of separator-free pieces |
| Text.DigitChar | scripts/contributors.mjs:222 | a digit character whose value is the digit |
| Text.NatToString | scripts/contributors.mjs:222 | `${n}` is a non-empty string of decimal digits |
| Text.NatToStringRoundTrip | scripts/contributors.mjs:222 | reading the rendered digits back gives the number |
| Text.NatToStringInjective | scripts/contributors.mjs:222 | different numbers render differently |
| Text.DigitPrefix | scripts/bugs.mjs:135-136 | the longest prefix made only of digits |
| Text.LeadingInt | scripts/bugs.mjs:135-136 | `parseInt` is NaN (None) iff no digit follows the skipped white space and sign |
| Text.DigitPrefixOf | scripts/bugs.mjs:135-136 | the digit prefix of digits followed by a non-digit is those digits |
| Text.LeadingIntOfNumberedLabel | scripts/bugs.mjs:135 | a label such as `2 - High` parses to its leading number |
| Stats.SortedCopy | scripts/pr-metrics.mjs:91 | the sorted copy is a permutation of the samples |
| Stats.SortedCopyOrdered | scripts/pr-metrics.mjs:91 | the sorted copy is in ascending order |
| Stats.Mean | scripts/pr-metrics.mjs:81-84 | null iff there are no samples |
| Stats.Median | scripts/pr-metrics.mjs:89-94 | null iff there are no samples |
| Stats.MeanWithin | scripts/pr-metrics.mjs:81-84 | the mean lies within any bounds that every sample respects |
| Stats.NonNegativeStats | scripts/bugs.mjs:164-166 | the mean and median of non-negative samples are non-negative |
| Stats.MedianWithin | scripts/pr-metrics.mjs:89-94 | the median lies within any bounds of the samples; for an odd count it is one of the samples |
| Seqs.Count | scripts/pr-metrics.mjs:300 | a count is at most the length, and zero iff nothing satisfies the predicate |
| Seqs.CountCons | scripts/pr-metrics.mjs:253-254 | counting from the front: the first element adds one exactly when it satisfies the predicate |
| Seqs.Filter | scripts/pr-metrics.mjs:253-254 | the filtered list keeps only elements of the input that satisfy the predicate, and it has as many elements as satisfy it |
| Seqs.FilterKeeps | scripts/pr-metrics.mjs:253-254 | every element that satisfies the predicate is kept |
| Seqs.SumRealBounds | scripts/pr-metrics.mjs:83 | bounds on every element bound the sum |
| Seqs.SumByAppend | scripts/pr-metrics.mjs:412 | a sum grows by the value of an appended element |
| Seqs.SumByUpdate | scripts/bugs.mjs:200-202 | replacing an element changes a sum by the difference of the two values |
| Seqs.SumBySortBy | scripts/pr-metrics.mjs:368 | sorting does not change a sum |
| Seqs.Insert | scripts/pr-metrics.mjs:368 | an insertion adds exactly the inserted element |
| Seqs.SortBy | scripts/pr-metrics.mjs:368 | `sort` returns a permutation of its input |
| Seqs.InsertSorted | scripts/pr-metrics.mjs:368 | inserting into a sorted list keeps it sorted under a total preorder |
| Seqs.SortBySorted | scripts/pr-metrics.mjs:368 | under a comparator that is a total preorder the result is sorted |
| Seqs.SortByMembers | scripts/pr-metrics.mjs:368 | sorting neither adds nor loses elements |
| Seqs.LexLeTotal | scripts/contributors.mjs:214 | any two names are comparable |
| Seqs.LexLeTransitive | scripts/contributors.mjs:214 | the name order is transitive |
| Seqs.LexLeAntisymmetric | scripts/contributors.mjs:214 | names that compare equal in both directions are equal |
| PrModel.Earliest | scripts/pr-metrics.mjs:51-53 | the reduce returns one of the threads, and none was published earlier |
| PrModel.FindFirstReviewDate | scripts/pr-metrics.mjs:43-55 | null iff no vote update is by someone other than the creator; otherwise the publish time of the earliest such vote |
| PrModel.FirstVoteBy | scripts/pr-metrics.mjs:344-353 | null iff the reviewer has no vote update; otherwise the publish time of their earliest one |
| PrModel.FirstVoteByNotBeforeFirstReview | scripts/pr-metrics.mjs:344-353 | a non-creator's own first vote is never earlier than the PR's first review |
| PrModel.ValidDates | scripts/pr-metrics.mjs:62-64 | exactly the valid `lastUpdatedDate` values of the threads |
| PrModel.MaxOf | scripts/pr-metrics.mjs:66 | the maximum is one of the dates and at least each of them |
| PrModel.LastActivity | scripts/pr-metrics.mjs:61-67 | the creation time when no thread has a valid update time; otherwise the latest thread update |
| PrModel.DaysStale | scripts/pr-metrics.mjs:398 | the whole number of idle days, rounded down |
| PrModel.StaleDaysAtLeastThreshold | scripts/pr-metrics.mjs:72-76 | a stale PR is reported with at least the threshold in whole days |
| PrRetrieval.FetchPagedPrs | scripts/pr-metrics.mjs:100-115 | the page loop's result equals the paging specification: pages are appended until a short page, a failure or the page cap; the requests it makes, recorded in order, number at most `maxPages`, match the count that RequestsBounded bounds, and the i-th one asks for `$skip` = 1000·i |
| PrRetrieval.RequestsBounded | scripts/pr-metrics.mjs:106-111 | at most `maxPages` requests are made |
| PrRetrieval.CapHitIffAllFull | scripts/pr-metrics.mjs:104-111 | `capHit` is set iff every allowed page came back full |
| PrRetrieval.PagesConcatenate | scripts/pr-metrics.mjs:106-111 | a successful page loop made only successful requests, every page but the last was full, and the result is exactly the requested pages joined in request order |
| PrRetrieval.Windows | scripts/pr-metrics.mjs:118 | there is always at least one window to try |
| PrRetrieval.FetchPrsWithFallback | scripts/pr-metrics.mjs:117-148 | the window loop's result equals the fallback specification |
| PrRetrieval.OverrideIsSingleAttempt | scripts/pr-metrics.mjs:118-144 | with a non-zero `--days`, only that window is fetched and its result is final |
| PrRetrieval.NoOverrideFallback | scripts/pr-metrics.mjs:118-145 | without an override: unbounded first, then 365, then 90 days; a window under 500 PRs is accepted, the 90-day window always is, and an API error stops the run |
| PrRetrieval.DefaultNeverReturned | scripts/pr-metrics.mjs:147-148 | every success is the accepted result of one of the windows, so the closing default is unreachable |
| ThreadRetrieval.BatchEnd | scripts/pr-metrics.mjs:173-174 | a batch holds between one and ten PRs and never runs past the end |
| ThreadRetrieval.FetchBatch | scripts/pr-metrics.mjs:159-167 | one (id, threads) pair per batch member, in order; a rejected request gives no threads |
| ThreadRetrieval.StoreKeys | scripts/pr-metrics.mjs:188-190 | storing adds exactly the ids of the results to the map's keys |
| ThreadRetrieval.BatchIds | scripts/pr-metrics.mjs:159-167 | a batch's results carry exactly the batch's ids |
| ThreadRetrieval.ThreadsFromKeys | scripts/pr-metrics.mjs:169-194 | the batch loop adds exactly the remaining ids to the map |
| ThreadRetrieval.StoreAll | scripts/pr-metrics.mjs:188-190 | the storing loop equals storing each pair in order |
| ThreadRetrieval.FetchAllThreads | scripts/pr-metrics.mjs:169-194 | the batch loop equals the thread-map specification |
| ThreadRetrieval.EveryIdHasEntry | scripts/pr-metrics.mjs:169-194 | every PR id gets an entry and nothing else does |
| ThreadRetrieval.StoredInBatch | scripts/pr-metrics.mjs:179-190 | with distinct ids, storing a batch records each member's own result, from the retry if the batch was retried |
| ThreadRetrieval.ThreadsFromAt | scripts/pr-metrics.mjs:173-191 | from any batch start on, each later PR's entry holds its chosen threads |
| ThreadRetrieval.EntryIsChosenThreads | scripts/pr-metrics.mjs:169-194 | with distinct ids, each PR's entry holds exactly the threads of its own request |
| ThreadRetrieval.RetryOnlyWhenAllEmpty | scripts/pr-metrics.mjs:181-186 | a single-PR batch, or one where some first result is non-empty, keeps its first results |
| PrLatency.CycleTimeHours | scripts/pr-metrics.mjs:270-273 | as many samples as there are completed PRs with a closing time and a non-negative duration; every sample is non-negative |
| PrLatency.CycleTimeSamples | scripts/pr-metrics.mjs:270-273 | the i-th sample is (closedDate − creationDate) in hours of the i-th completed PR that has a closing time and a non-negative duration, in PR order |
| PrLatency.CycleTimesSpec | scripts/pr-metrics.mjs:270-280 | the count is the number of sampled PRs; mean and median are null iff it is zero, and otherwise non-negative |
| PrLatency.FirstReviewSamples | scripts/pr-metrics.mjs:289-298 | every first-review latency pushed is non-negative |
| PrLatency.FirstReviewSampleValues | scripts/pr-metrics.mjs:289-298 | one sample per PR whose first peer vote is not before its creation, and the i-th sample is the hours from creation to the first peer vote of the i-th such PR |
| PrLatency.FirstReviewStep | scripts/pr-metrics.mjs:289-298 | one more PR adds its sample when it has a non-negative latency, and one to the missing count when it has no peer vote |
| PrLatency.FirstReviewTimes | scripts/pr-metrics.mjs:286-298 | the loop pushes exactly the specified latencies, in PR order, and counts exactly the PRs without a peer vote |
| PrLatency.FirstReviewPartition | scripts/pr-metrics.mjs:289-298 | every PR is exactly one of: sampled, missing a peer vote, or dropped for a negative latency |
| PrLatency.FirstReviewReportSpec | scripts/pr-metrics.mjs:300-310 | sampled plus missing is at most the PR count; the above-threshold count is at most the sample count; mean and median are null iff there is no sample; the threshold is 4 |
| PrReviewers.IndexOf | scripts/pr-metrics.mjs:334 | none iff no entry has the id; otherwise an entry with that id |
| PrReviewers.ReviewTime | scripts/pr-metrics.mjs:344-357 | a recorded review latency is never negative |
| PrReviewers.BuildReviewerStats | scripts/pr-metrics.mjs:322-360 | the nested loops equal the reviewer-table specification |
| PrReviewers.BumpOk | scripts/pr-metrics.mjs:341-357 | one more review keeps the entry sound |
| PrReviewers.RecordWellFormed | scripts/pr-metrics.mjs:326-358 | one reviewer's update keeps ids distinct and entries sound |
| PrReviewers.RecordAllWellFormed | scripts/pr-metrics.mjs:326-359 | one PR's reviewers keep the table well formed |
| PrReviewers.StatsWellFormed | scripts/pr-metrics.mjs:322-360 | distinct ids; each entry has a review, at most one latency per review, and no negative latency |
| PrReviewers.RecordSum | scripts/pr-metrics.mjs:326-341 | a reviewer adds one to the total exactly when counted |
| PrReviewers.RecordAllSum | scripts/pr-metrics.mjs:326-341 | one PR adds its number of counted reviewers to the total |
| PrReviewers.StatsSum | scripts/pr-metrics.mjs:322-360 | the review counts add up to the counted (PR, reviewer) pairs |
| PrReviewers.RecordIds | scripts/pr-metrics.mjs:326-340 | an id is present after one reviewer iff it was before or that reviewer was counted under it |
| PrReviewers.RecordAllIds | scripts/pr-metrics.mjs:326-340 | an id is present after one PR iff it was before or one of its reviewers was counted under it |
| PrReviewers.StatsIds | scripts/pr-metrics.mjs:322-360 | an id has an entry iff a review was counted under it, so creators, zero votes and groups never get one alone |
| PrReviewers.IndexOfSameIds | scripts/pr-metrics.mjs:334 | updating entries without changing ids leaves every id's lookup where it was |
| PrReviewers.RecordEntry | scripts/pr-metrics.mjs:326-357 | one reviewer adds one review and its latency, if any, to its own id's entry and changes no other id's entry |
| PrReviewers.RecordAllEntry | scripts/pr-metrics.mjs:326-358 | one PR adds to an id's entry its counted reviewers under that id and their latencies, in reviewer order |
| PrReviewers.StatsEntries | scripts/pr-metrics.mjs:322-360 | the count and latencies stored under an id are the counted reviews under it and their latencies, PR by PR |
| PrReviewers.StatsEntry | scripts/pr-metrics.mjs:322-360 | an id has an entry iff some counted pair has that id; its reviewCount is the number of those pairs and its firstReviewTimes are their non-negative first-vote latencies in PR and reviewer order |
| PrReviewers.Entries | scripts/pr-metrics.mjs:362-367 | one distribution entry per table entry, in order |
| PrReviewers.EntriesSum | scripts/pr-metrics.mjs:362-367 | converting entries keeps the review total |
| PrReviewers.DistributionSpec | scripts/pr-metrics.mjs:362-368 | the distribution is a permutation of the table's entries, sorted by non-increasing count, summing to the counted pairs |
| PrReviewers.EntryAverage | scripts/pr-metrics.mjs:365-367 | the average is null iff there is no latency, and otherwise non-negative |
| PrReviewers.CreatorIds | scripts/pr-metrics.mjs:373 | distinct ids, exactly the non-empty creator ids |
| PrReviewers.AbsentFrom | scripts/pr-metrics.mjs:382-385 | only names of ids without an entry, and the non-empty name of every such id |
| PrReviewers.AbsentReviewersSpec | scripts/pr-metrics.mjs:373-385 | a name is listed iff it is the non-empty display name of a creator under whose id no review was counted |
| PrStale.OrUnknown | scripts/pr-metrics.mjs:401 | never empty, and a non-empty value is kept |
| PrStale.StaleOf | scripts/pr-metrics.mjs:390-406 | never longer than the PR list |
| PrStale.StaleOfSource | scripts/pr-metrics.mjs:390-406 | every listed entry is the entry of a stale PR |
| PrStale.StaleOfHas | scripts/pr-metrics.mjs:390-406 | every stale PR's entry is listed |
| PrStale.StaleOfMembers | scripts/pr-metrics.mjs:390-406 | an entry is listed iff it is the entry of a stale PR |
| PrStale.StalePrsSpec | scripts/pr-metrics.mjs:390-407 | the list is sorted by non-increasing days stale, holds exactly the entries of stale active PRs, and each is stale for at least the threshold |
| PrStale.TenDayOldPrIsStale | scripts/pr-metrics.mjs:390-407 | an active PR idle ten days is reported ten days stale under a three-day threshold |
| PrBottleneck.Candidates | scripts/pr-metrics.mjs:415 | exactly the entries with at least three reviews |
| PrBottleneck.WithTime | scripts/pr-metrics.mjs:419 | exactly the candidates that have an average |
| PrBottleneck.Slowest | scripts/pr-metrics.mjs:420-422 | an entry of highest average, the first one on ties |
| PrBottleneck.MostReviewed | scripts/pr-metrics.mjs:425-427 | an entry of highest count, the first one on ties |
| PrBottleneck.SlowestCandidate | scripts/pr-metrics.mjs:419-422 | none iff no candidate has an average; otherwise a candidate with the highest average |
| PrBottleneck.TopCandidate | scripts/pr-metrics.mjs:425-427 | none iff there is no candidate; otherwise a candidate with the highest count |
| PrBottleneck.FindBottleneck | scripts/pr-metrics.mjs:412-466 | the flag-and-branch block equals the bottleneck decision |
| PrBottleneck.ReportedIsCandidate | scripts/pr-metrics.mjs:414-464 | nobody is reported without a reviewer of three or more reviews; a reported reviewer is a candidate, with their average and their share of all counted reviews |
| PrBottleneck.CandidateShare | scripts/pr-metrics.mjs:412-461 | a candidate's reviews are among all counted reviews: the total is positive and the share is the candidate's count over it |
| PrBottleneck.SlowestIsReported | scripts/pr-metrics.mjs:434-451 | when a candidate has an average, the slowest candidate is reported; the kind is `both` iff it is also the concentrated one by name, and never `concentrated` |
| PrBottleneck.ConcentratedOnlyWithoutAverages | scripts/pr-metrics.mjs:434-455 | `concentrated` only when no candidate has an average, and then the top candidate holds over half of all reviews |
| PrBottleneck.SumByAtLeast | scripts/pr-metrics.mjs:412 | no entry's count exceeds the total |
| PrBottleneck.DecideSlow | scripts/pr-metrics.mjs:445-451 | a slowest candidate that differs by name from the top candidate is reported as `slow` with its own share |
| PrBottleneck.DecideBoth | scripts/pr-metrics.mjs:442-444 | a slowest candidate that is also the top one, holding over half, is reported as `both` |
| PrBottleneck.BothExample | scripts/pr-metrics.mjs:434-444 | 6 of 10 reviews at the highest average is reported as `both` with share 0.6 |
| PrBottleneck.SplitExample | scripts/pr-metrics.mjs:445-448 | worked example: A holds 6 of 10 reviews at 2 hours and B 3 at 8 hours, so B is reported as `slow` with share 0.3 (the general rule is DecideSlow) |
| PrBottleneck.TwoReviewsNeverReported | scripts/pr-metrics.mjs:415 | worked example: R has 2 reviews at 100 hours and S 3 at 1 hour, so S is reported as `both` and R is not (the general rule is ReportedIsCandidate) |
| PrBottleneck.PickedOfTwo | scripts/pr-metrics.mjs:419-427 | the slowest and top candidates of a two-entry distribution |
| PrBottleneck.PickedOfThree | scripts/pr-metrics.mjs:419-427 | the slowest and top candidates of a three-entry distribution |
| PrMetrics.ActiveAndCompletedWithinTotal | scripts/pr-metrics.mjs:253-254 | active plus completed is at most the total |
| PrMetrics.RepoNames | scripts/pr-metrics.mjs:257-258 | distinct names, exactly the non-empty repository names of the PRs |
| PrMetrics.RepoNamesBounded | scripts/pr-metrics.mjs:257-258 | no more repositories than PRs |
| PrMetrics.SummaryOf | scripts/pr-metrics.mjs:471-481 | active plus completed is at most the total, and `reposAnalyzed` counts the names |
| PrMetrics.StaleAtMostActive | scripts/pr-metrics.mjs:390 | no more stale PRs than active ones |
| PrMetrics.PrIds | scripts/pr-metrics.mjs:264-265 | the PR ids in order |
| PrMetrics.Run | scripts/pr-metrics.mjs:200-496 | `main` step by step equals the run specification |
| PrMetrics.ComputeMetrics | scripts/pr-metrics.mjs:252-493 | the metrics block equals the metrics specification |
| PrMetrics.RunErrors | scripts/pr-metrics.mjs:215-248 | an error iff the repository list is needed and unavailable, the filter matches nothing (listing every name), or the PR fetch fails; the fetch is project-wide without a filter and uses the first matching repository's id with one, and a fetch failure is reported as that fetch's error |
| PrMetrics.RepoScope | scripts/pr-metrics.mjs:215-238 | the resolution fails iff a filter is given and the repository list is unavailable or names no repository; otherwise the fetch is scoped to no repository without a filter and to the first match's id with one |
| PrMetrics.RunSucceeded | scripts/pr-metrics.mjs:243-493 | a successful run is the metrics of the scoped fetch's accepted window and of the thread map of its PRs |
| PrMetrics.RunSummary | scripts/pr-metrics.mjs:471-493 | in a successful run the scoped fetch succeeded and the summary counts its PRs and carries its window and cap flag; the counts are consistent, the repository names are distinct, and the thresholds are the ones in force |
| Contributors.IndexOf | scripts/contributors.mjs:111 | none iff no author has the email; otherwise that author's position |
| Contributors.AggregateStep | scripts/contributors.mjs:105-128 | one loop iteration adds one commit |
| Contributors.TallyEntry | scripts/contributors.mjs:120-127 | the entry update equals the tally |
| Contributors.AggregateCommits | scripts/contributors.mjs:103-128 | the aggregation loop equals the aggregation specification |
| Contributors.LatestDate | scripts/contributors.mjs:124-127 | none iff no commit of the email has a date; otherwise the latest date |
| Contributors.FirstNameAt | scripts/contributors.mjs:123-126 | none iff no commit of the email has that date |
| Contributors.ReposOf | scripts/contributors.mjs:122 | distinct names, exactly the non-empty repositories of the email's commits |
| Contributors.AddCommitEntry | scripts/contributors.mjs:105-128 | one commit changes only its own author's entry |
| Contributors.ExpectedFirst | scripts/contributors.mjs:111-127 | an author's first commit creates the entry and tallies it |
| Contributors.ExpectedNext | scripts/contributors.mjs:120-127 | a later commit tallies onto the existing entry |
| Contributors.ExpectedUnrelated | scripts/contributors.mjs:105-128 | another author's commit changes nothing for this email |
| Contributors.AggregateSpec | scripts/contributors.mjs:103-128 | an email has an entry iff it is non-empty and has commits; the entry holds the commit count, the repositories, the latest date and the name at that date |
| Contributors.AggregateWellKeyed | scripts/contributors.mjs:105-119 | entries are keyed by distinct, non-empty, lower-case emails |
| Contributors.TotalCommitsSpec | scripts/contributors.mjs:230 | `totalCommits` is the number of commits with an author email |
| Contributors.TeamEmails | scripts/contributors.mjs:170-178 | distinct, exactly the non-empty lower-cased unique names of the team |
| Contributors.TeamNameMap | scripts/contributors.mjs:171-177 | a name for exactly the team emails |
| Contributors.Remove | scripts/contributors.mjs:191 | deleting removes exactly that email and keeps the rest distinct |
| Contributors.ToQuiet | scripts/contributors.mjs:205-210 | one quiet member per leftover email, named by the team map or by the email |
| Contributors.BuildTeam | scripts/contributors.mjs:169-178 | the member loop builds exactly the team emails and the name map |
| Contributors.SplitByTeam | scripts/contributors.mjs:180-202 | the classification loop equals the split specification |
| Contributors.ClassifyContributors | scripts/contributors.mjs:153-216 | the classification block equals the classification specification |
| Contributors.SplitAuthorsSpec | scripts/contributors.mjs:181-202 | authors are partitioned into active (email on the team) and former (not on it); the leftover emails are exactly the team emails no author has |
| Contributors.NameOrderIsTotal | scripts/contributors.mjs:214 | the quiet-name comparator is a total preorder |
| Contributors.NoTeamData | scripts/contributors.mjs:158-167 | without team data every author is active, sorted by commits, and quiet and former are empty |
| Contributors.WithTeamPartition | scripts/contributors.mjs:181-202 | with team data, active and former partition the authors by team membership |
| Contributors.WithTeamQuiet | scripts/contributors.mjs:204-210 | an email is quiet iff it is on the team and has no commits |
| Contributors.QuietEmails | scripts/contributors.mjs:205-214 | the sorted quiet list holds exactly the leftover emails |
| Contributors.WithTeamDisjoint | scripts/contributors.mjs:170-210 | active, quiet and former share no email |
| Contributors.WithTeamSorted | scripts/contributors.mjs:213-215 | active and former by non-increasing commits, quiet by name |
| Contributors.NumberedInjective | scripts/contributors.mjs:222-224 | different positions get different labels |
| Contributors.AnonymizeAuthors | scripts/contributors.mjs:222 | one entry per author |
| Contributors.AnonymizeQuiet | scripts/contributors.mjs:223 | one entry per quiet member |
| Contributors.AnonymizeSpec | scripts/contributors.mjs:221-225 | anonymising replaces the name with a distinct numbered label and the email with `---`, keeping counts, repositories and dates |
| Contributors.BuildReport | scripts/contributors.mjs:158-245 | the script's report equals the report specification |
| Contributors.SplitCommits | scripts/contributors.mjs:181-202 | active and former together hold all the authors and all their commits |
| Contributors.ClassifyCounts | scripts/contributors.mjs:158-216 | no author or commit is lost; the unavailable flag is set iff there is no team data |
| Contributors.ReportSpec | scripts/contributors.mjs:230-245 | `totalCommits` counts the keyed commits and equals the active and former commits together |
| Contributors.ReportKeepsCounts | scripts/contributors.mjs:221-245 | anonymous mode keeps every list's length and commit total |
| Contributors.AggregatedHaveDistinctKeys | scripts/contributors.mjs:103-128 | the aggregated authors have distinct emails |
| Bugs.TrimAll | scripts/bugs.mjs:62 | each piece is trimmed |
| Bugs.NonEmpty | scripts/bugs.mjs:62 | exactly the non-empty pieces |
| Bugs.ParseTypes | scripts/bugs.mjs:62 | every parsed type is non-empty, trimmed and comma-free |
| Bugs.NonEmptyKeeps | scripts/bugs.mjs:62 | a list without empty pieces passes the filter unchanged |
| Bugs.CleanPieces | scripts/bugs.mjs:62 | clean type names survive trim and filter |
| Bugs.ParseTypesRoundTrip | scripts/bugs.mjs:62 | parsing a comma-joined list of clean type names gives the list back |
| Bugs.KeyIndex | scripts/bugs.mjs:129 | a key lookup on a plain object: none iff no entry has the key; otherwise the position of the entry with that key |
| Bugs.KeyIndexSameKeys | scripts/bugs.mjs:130 | updating an entry's value without changing its key leaves every lookup unchanged |
| Bugs.GroupIndex | scripts/bugs.mjs:129 | none iff no group has the severity; otherwise its position |
| Bugs.GroupBySeverity | scripts/bugs.mjs:125-131 | the grouping loop equals the severity-group specification |
| Bugs.AddToGroupLookup | scripts/bugs.mjs:126-131 | one item extends only its own severity's group |
| Bugs.GroupsSpec | scripts/bugs.mjs:125-131 | each severity's group holds exactly its items, in input order; a group exists iff some item has that severity |
| Bugs.GroupsWellFormed | scripts/bugs.mjs:125-131 | group keys are distinct and no group is empty |
| Bugs.GroupsTotal | scripts/bugs.mjs:125-131 | group sizes add up to the number of items |
| Bugs.SevOrderIsTotal | scripts/bugs.mjs:134-141 | the severity comparator is a total preorder |
| Bugs.Keys | scripts/bugs.mjs:134 | the group keys in insertion order |
| Bugs.BreakdownFrom | scripts/bugs.mjs:143-146 | one entry per key, with that group's count and bugs |
| Bugs.BreakdownTotal | scripts/bugs.mjs:143-146 | the breakdown counts add up to the number of items |
| Bugs.KeysSizeTotal | scripts/bugs.mjs:143-146 | summing each key's group size over the keys gives the total of the groups |
| Bugs.BreakdownEntries | scripts/bugs.mjs:143-146 | each entry holds all items of its severity, in order, and counts them |
| Bugs.BreakdownKeys | scripts/bugs.mjs:134-146 | a severity has an entry iff some item has it |
| Bugs.SortedKeysHas | scripts/bugs.mjs:134 | a key is among the sorted keys iff a group has it |
| Bugs.BreakdownFromHas | scripts/bugs.mjs:143-146 | the entries built from some keys are keyed by exactly those keys |
| Bugs.BreakdownOrdered | scripts/bugs.mjs:134-146 | the entries are in severity order |
| Bugs.SeverityOrderMeaning | scripts/bugs.mjs:134-141 | numbered keys come first, in numeric order; unnumbered keys are in code-point order |
| Bugs.LeadingIntOfLabel | scripts/bugs.mjs:135-136 | a numbered label parses to its number |
| Bugs.NumberedSeveritiesByValue | scripts/bugs.mjs:134-141 | `2 - High` sorts strictly before `10 - Low` |
| Bugs.AgeDays | scripts/bugs.mjs:151-154 | the age is the whole number of days since creation, rounded down |
| Bugs.Ages | scripts/bugs.mjs:151-154 | one age per item, in order |
| Bugs.CountBuckets | scripts/bugs.mjs:156-162 | the bucket loop equals the bucket specification |
| Bugs.BucketsSpec | scripts/bugs.mjs:156-162 | each bucket counts exactly the ages in its range (0-7 also takes negative ages), and the four add up to the number of ages |
| Bugs.AsReals | scripts/bugs.mjs:164-166 | the ages as numbers, in order |
| Bugs.TopEntries | scripts/bugs.mjs:177-190 | one entry per item, in order |
| Bugs.CreatedOrderIsTotal | scripts/bugs.mjs:173-175 | the creation-date comparator is a total preorder |
| Bugs.Top5Shape | scripts/bugs.mjs:177-190 | min(5, n) entries, each built from an item, with severity and assignee defaulted; the items split into a taken part and a left-out part, each item used once, the entries are the taken part's, and nothing taken is newer than anything left out |
| Bugs.Top5FromItems | scripts/bugs.mjs:177-190 | each entry of the top list is built from one of the items |
| Bugs.Top5Partition | scripts/bugs.mjs:173-177 | the top list comes from a split of the items that uses each item once, and nothing taken is newer than anything left out |
| Bugs.SplitOldestFirst | scripts/bugs.mjs:173-177 | cutting a list sorted by creation date leaves nothing in the front newer than anything behind |
| Bugs.Top5Order | scripts/bugs.mjs:173-177 | ascending creation order; none created later than any item left out; the first is the oldest item |
| Bugs.SortedByAge | scripts/bugs.mjs:173-175 | the copy sorted by creation date is in ascending order and starts with the oldest item |
| Bugs.SevIndex | scripts/bugs.mjs:202 | none iff no counter has the severity; otherwise its position |
| Bugs.AssigneeIndex | scripts/bugs.mjs:199 | none iff no group has the assignee; otherwise its position |
| Bugs.CountSeverity | scripts/bugs.mjs:202 | the counter update equals the severity-bump specification |
| Bugs.AssignOne | scripts/bugs.mjs:197-202 | one item's step of the assignee loop, updating its group in place, equals the step of the assignee-group specification |
| Bugs.GroupByAssignee | scripts/bugs.mjs:195-203 | the assignee loop equals the assignee-group specification |
| Bugs.BumpSeverityTotal | scripts/bugs.mjs:202 | one bump adds one to the severity counters' sum |
| Bugs.AssigneesWellCounted | scripts/bugs.mjs:195-203 | assignee keys are distinct and each count is the sum of its severity counters |
| Bugs.AssigneesTotal | scripts/bugs.mjs:195-203 | the assignee counts add up to the number of items |
| Bugs.AssigneeCountSpec | scripts/bugs.mjs:195-203 | an assignee has a group iff some item is assigned to them, and the count is their number of items |
| Bugs.BumpSeverityPositive | scripts/bugs.mjs:202 | a bump keeps every severity counter at least one |
| Bugs.BumpSeverityTally | scripts/bugs.mjs:202 | a bump adds one to the bumped severity's counter and leaves the others alone |
| Bugs.AddAssignedPositive | scripts/bugs.mjs:197-202 | one item keeps every severity counter of every group at least one |
| Bugs.AddAssignedTally | scripts/bugs.mjs:197-202 | one item adds one to its own (assignee, severity) counter and to no other |
| Bugs.AssigneesTallies | scripts/bugs.mjs:195-203 | every counter is positive and the counter under (assignee, severity) is the number of items with both |
| Bugs.AssigneeSeverityCountSpec | scripts/bugs.mjs:195-203 | an assignee's group has a counter for a severity iff some item with both exists, and the counter is the number of such items |
| Bugs.Rows | scripts/bugs.mjs:205-211 | one row per group, in order |
| Bugs.RowsTotal | scripts/bugs.mjs:205-211 | rows keep the count total |
| Bugs.AssignmentDistributionSpec | scripts/bugs.mjs:205-212 | by non-increasing count, summing to the number of items; each row's count is its severities' sum, and overloaded iff the count is over 5 |
| Bugs.BuildBugReport | scripts/bugs.mjs:62-228 | a query failure and a fetch failure are errors; no ids gives the empty report; otherwise the report of the fetched items |
| Bugs.EmptyReportAgrees | scripts/bugs.mjs:85-98 | the early empty output equals what the general computation gives for no items |
| Bugs.ReportTotals | scripts/bugs.mjs:217-228 | breakdown, buckets and distribution each account for every open bug; the top list has min(5, n) entries; the age statistics are null iff there are no bugs |

## Left out

- HTTP, authentication and the REST client (`scripts/ado-client.mjs`) are left out. Each request is a parameter that yields a result or a failure, and request parameters such as `searchCriteria` are not modelled.
- Reading and writing the configuration file (`loadConfig`, `configExists`, `saveConfig`), the `--check-config` mode and `--project` are left out. They are file I/O.
- Command-line parsing is left out. `--repo`, `--days`, `--stale-days` and `--anonymous` arrive as parsed values. A `--days` that does not parse, which is NaN and falsy, is passed as absent. A `--stale-days` that does not parse is not modelled: `staleDays` is an integer here, whereas the script compares against NaN and so marks no pull request stale.
- Writing JSON to standard output and standard error, and `process.exit`, are left out. Each failure path is an error value of the result instead.
- The `config` and `unexpected` error outputs are left out. They come from configuration I/O or from exceptions outside the model.
- `Promise.allSettled` concurrency and the two-second `sleep` before a retry are left out. A batch's requests are modelled as independent outcomes indexed by position and attempt.
- The clock is a single `now`. The script calls `Date.now()` separately in `isStale` and in the days-stale computation, and uses `new Date().toISOString()` for `fetchedAt` and `queryDate`. Timestamps that are not modelled are left out of the output records.
- Dates are integers in milliseconds. Parsing ISO strings is left out. Raw date-string comparisons are modelled as comparing the integers: the commit dates of `scripts/contributors.mjs`, and the thread `publishedDate` comparisons in the earliest-vote reductions of `scripts/pr-metrics.mjs` (lines 52 and 352).
- The commit fetch loop of `scripts/contributors.mjs` (lines 80-98) and its `repoNames` and `daysCovered` are left out. So is the team lookup (lines 133-148), whose outcome is an input. The commits are the concatenated result.
- The `project` and `teamName` summary fields, which come from the configuration or the API, are left out.
- The WIQL query text of `scripts/bugs.mjs` and its 500-item cap are left out. The query is an oracle that returns ids or fails.
- The `errors` array of `scripts/pr-metrics.mjs`, which is never filled, is left out.
- Bugs.AgeAnalysisOf: `meanDays` is the exact mean; the script's rounding to one decimal with `Math.round` is not modelled, because it is floating point.
- Floating-point arithmetic is left out. Hours, days, averages and shares are exact reals.
- Stats.Median: for an even count the contract states bounds only; the definition averages the two middle values of the sorted copy, as the script does.
- `localeCompare` is code-point order (`Seqs.LexLe`). Locale collation rules are not modelled.
- `toLowerCase` covers the ASCII letters only.
- Strings are sequences of Unicode scalar values. JavaScript strings are UTF-16, so `length`, `slice` and code-unit order differ from the model above U+FFFF. This affects the length test and the kept ends in `maskPat` (`scripts/config.mjs:27-28`) and the string orders, which are not modelled for such characters.
- Object keys named after `Object.prototype` members ("constructor", "toString", "__proto__") are grouped like any other key. In the script these keys read inherited values (`scripts/bugs.mjs:129-130` and `199-202`). That gives a TypeError, reported as `unexpected`, or a wrong severity count.
- JavaScript sorts are modelled as a stable insertion sort, as the language requires. Comparators are read as "may stand before".
- JavaScript objects list integer-like keys first in ascending order. Severity and assignee groups are modelled in insertion order.
- Objects updated in place (the author map, the reviewer table, the groups) are sequences of records that each loop reassigns. Aliasing between those records is not modelled.
