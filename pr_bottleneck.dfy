/** Bottleneck identification in `main` of scripts/pr-metrics.mjs: among reviewers with at
    least three reviews, the slowest on average, or the one holding more than half of all
    reviews. */
module PrBottleneck {
  import opened Wrappers
  import opened Seqs
  import opened PrReviewers

  const MinReviews: nat := 3

  datatype Kind = Slow | Concentrated | Both

  datatype Bottleneck = Bottleneck(name: string, avgTimeToReviewHours: Option<real>, reviewShare: real, kind: Kind)

  /** `totalNonZeroVotes`. */
  function Total(dist: seq<DistEntry>): nat { SumBy(dist, EntryCount) }

  predicate IsCandidate(e: DistEntry) { e.reviewCount >= MinReviews }

  /** `reviewerDistribution.filter(r => r.reviewCount >= 3)`. */
  function Candidates(dist: seq<DistEntry>): (c: seq<DistEntry>)
    ensures forall e :: e in c <==> e in dist && IsCandidate(e)
    ensures c == [] <==> forall i :: 0 <= i < |dist| ==> !IsCandidate(dist[i])
  {
    if dist == [] then []
    else
      assert forall e :: e in dist <==> e == dist[0] || e in dist[1..];
      (if IsCandidate(dist[0]) then [dist[0]] else []) + Candidates(dist[1..])
  }

  /** `candidates.filter(r => r.avgTimeToReviewHours !== null)`. */
  function WithTime(c: seq<DistEntry>): (w: seq<DistEntry>)
    ensures forall e :: e in w <==> e in c && e.avgTimeToReviewHours.Some?
  {
    if c == [] then []
    else
      assert forall e :: e in c <==> e == c[0] || e in c[1..];
      (if c[0].avgTimeToReviewHours.Some? then [c[0]] else []) + WithTime(c[1..])
  }

  function Avg(e: DistEntry): real requires e.avgTimeToReviewHours.Some? { e.avgTimeToReviewHours.value }

  /** `withTime.reduce((max, r) => r.avg > max.avg ? r : max)`: the first entry of highest average. */
  function Slowest(w: seq<DistEntry>): (s: DistEntry)
    requires w != [] && forall k :: 0 <= k < |w| ==> w[k].avgTimeToReviewHours.Some?
    ensures s.avgTimeToReviewHours.Some?
    ensures forall k :: 0 <= k < |w| ==> Avg(w[k]) <= Avg(s)
    ensures exists i :: 0 <= i < |w| && w[i] == s && forall k :: 0 <= k < i ==> Avg(w[k]) < Avg(s)
  {
    if |w| == 1 then w[0]
    else
      var prefix := w[..|w| - 1];
      var m := Slowest(prefix);
      assert forall k :: 0 <= k < |prefix| ==> prefix[k] == w[k];
      if Avg(w[|w| - 1]) > Avg(m) then w[|w| - 1] else m
  }

  /** `candidates.reduce((max, r) => r.reviewCount > max.reviewCount ? r : max)`: the first
      entry of highest count. */
  function MostReviewed(c: seq<DistEntry>): (m: DistEntry)
    requires c != []
    ensures forall k :: 0 <= k < |c| ==> c[k].reviewCount <= m.reviewCount
    ensures exists i :: 0 <= i < |c| && c[i] == m && forall k :: 0 <= k < i ==> c[k].reviewCount < m.reviewCount
  {
    if |c| == 1 then c[0]
    else
      var prefix := c[..|c| - 1];
      var m := MostReviewed(prefix);
      assert forall k :: 0 <= k < |prefix| ==> prefix[k] == c[k];
      if c[|c| - 1].reviewCount > m.reviewCount then c[|c| - 1] else m
  }

  /** `reviewShare`: the entry's part of all counted reviews, 0 when there are none. */
  function Share(e: DistEntry, total: nat): real {
    if total > 0 then e.reviewCount as real / total as real else 0.0
  }

  /** The slowest candidate: the first of highest average among the candidates that have one. */
  function SlowestCandidate(dist: seq<DistEntry>): (s: Option<DistEntry>)
    ensures s.None? <==> forall e :: e in dist && IsCandidate(e) ==> e.avgTimeToReviewHours.None?
    ensures s.Some? ==> s.value in dist && IsCandidate(s.value) && s.value.avgTimeToReviewHours.Some?
    ensures s.Some? ==> forall e :: e in dist && IsCandidate(e) && e.avgTimeToReviewHours.Some? ==> Avg(e) <= Avg(s.value)
  {
    var w := WithTime(Candidates(dist));
    if w == [] then None
    else
      var m := Slowest(w);
      assert forall e :: e in w ==> exists k :: 0 <= k < |w| && w[k] == e;
      Some(m)
  }

  /** The concentrated candidate: the first of highest count. */
  function TopCandidate(dist: seq<DistEntry>): (t: Option<DistEntry>)
    ensures t.None? <==> forall e :: e in dist ==> !IsCandidate(e)
    ensures t.Some? ==> t.value in dist && IsCandidate(t.value)
    ensures t.Some? ==> forall e :: e in dist && IsCandidate(e) ==> e.reviewCount <= t.value.reviewCount
  {
    var c := Candidates(dist);
    if c == [] then None
    else
      var m := MostReviewed(c);
      assert forall e :: e in c ==> exists k :: 0 <= k < |c| && c[k] == e;
      Some(m)
  }

  /** The top-count candidate holds more than half of all counted reviews. */
  predicate IsConcentrated(dist: seq<DistEntry>) {
    TopCandidate(dist).Some? && Share(TopCandidate(dist).value, Total(dist)) > 0.5
  }

  /** The decision the branches reduce to: the slowest candidate when any candidate has an
      average (`both` when it is also, by name, the concentrated one), otherwise the
      concentrated candidate when its share exceeds one half, otherwise nothing. */
  function Decide(dist: seq<DistEntry>): Option<Bottleneck> {
    var total := Total(dist);
    match SlowestCandidate(dist)
    case Some(s) =>
      var both := IsConcentrated(dist) && s.name == TopCandidate(dist).value.name;
      Some(Bottleneck(s.name, s.avgTimeToReviewHours, Share(s, total), if both then Both else Slow))
    case None =>
      if IsConcentrated(dist) then
        var t := TopCandidate(dist).value;
        Some(Bottleneck(t.name, t.avgTimeToReviewHours, Share(t, total), Concentrated))
      else None
  }

  /** The bottleneck block as written, with its `isBoth`/`isSlow`/`isConc` flags and four
      branches; it computes the reduced decision. */
  method FindBottleneck(dist: seq<DistEntry>) returns (bottleneck: Option<Bottleneck>)
    ensures bottleneck == Decide(dist)
  {
    var total := Total(dist);
    bottleneck := None;
    var candidates := Candidates(dist);
    assert candidates == [] <==> TopCandidate(dist).None?;
    if |candidates| > 0 {
      var withTime := WithTime(candidates);
      var slowest: Option<DistEntry> := None;
      if |withTime| > 0 {
        slowest := Some(Slowest(withTime));
      }
      assert slowest == SlowestCandidate(dist);
      var concentrated: Option<DistEntry> := None;
      if total > 0 {
        concentrated := Some(MostReviewed(candidates));
      }
      var concentrationShare := 0.0;
      if concentrated.Some? && total > 0 {
        concentrationShare := concentrated.value.reviewCount as real / total as real;
      }
      var isConcentrated := concentrationShare > 0.5;
      assert isConcentrated == IsConcentrated(dist);
      assert isConcentrated ==> concentrated == TopCandidate(dist);
      if slowest.Some? || isConcentrated {
        var isBoth := slowest.Some? && isConcentrated && slowest.value.name == concentrated.value.name;
        var isSlow := slowest.Some? && (!isConcentrated || !isBoth);
        var isConc := isConcentrated && (slowest.None? || !isBoth);
        var candidate: Option<DistEntry>;
        var kind: Kind;
        if isBoth {
          candidate, kind := slowest, Both;
        } else if isSlow && isConc {
          candidate, kind := slowest, Slow;
        } else if isSlow {
          candidate, kind := slowest, Slow;
        } else {
          candidate, kind := concentrated, Concentrated;
        }
        if candidate.Some? {
          var share := if total > 0 then candidate.value.reviewCount as real / total as real else 0.0;
          bottleneck := Some(Bottleneck(candidate.value.name, candidate.value.avgTimeToReviewHours, share, kind));
        }
      }
    }
  }

  // ---------------------------------------------------------------------------
  // Properties of the decision
  // ---------------------------------------------------------------------------

  /** Nobody is reported unless some reviewer has at least three reviews, and whoever is
      reported is such a reviewer, with their share of all counted reviews. */
  lemma ReportedIsCandidate(dist: seq<DistEntry>)
    ensures (forall i :: 0 <= i < |dist| ==> dist[i].reviewCount < MinReviews) ==> Decide(dist).None?
    ensures Decide(dist).Some? ==>
      exists e :: e in dist && IsCandidate(e) && e.name == Decide(dist).value.name
                  && e.avgTimeToReviewHours == Decide(dist).value.avgTimeToReviewHours
                  && Total(dist) > 0
                  && Decide(dist).value.reviewShare == e.reviewCount as real / Total(dist) as real
  {
    var s := SlowestCandidate(dist);
    var t := TopCandidate(dist);
    if s.Some? {
      CandidateShare(dist, s.value);
    } else if t.Some? && IsConcentrated(dist) {
      CandidateShare(dist, t.value);
    } else {
      assert Decide(dist).None?;
    }
  }

  /** A candidate's reviews are among all counted reviews, so the total is positive and the
      candidate's share is its count over that total. */
  lemma CandidateShare(dist: seq<DistEntry>, e: DistEntry)
    requires e in dist && IsCandidate(e)
    ensures 0 < e.reviewCount <= Total(dist)
    ensures Share(e, Total(dist)) == e.reviewCount as real / Total(dist) as real
  {
    var i :| 0 <= i < |dist| && dist[i] == e;
    SumByAtLeast(dist, i);
  }

  /** When some candidate has an average, the report names the slowest candidate, as `both`
      when it is also by name the top-count candidate holding more than half of the reviews,
      and as `slow` otherwise. */
  lemma SlowestIsReported(dist: seq<DistEntry>)
    requires exists e :: e in dist && IsCandidate(e) && e.avgTimeToReviewHours.Some?
    ensures SlowestCandidate(dist).Some? && Decide(dist).Some?
    ensures Decide(dist).value.name == SlowestCandidate(dist).value.name
    ensures Decide(dist).value.avgTimeToReviewHours == SlowestCandidate(dist).value.avgTimeToReviewHours
    ensures Decide(dist).value.kind == Both <==>
              IsConcentrated(dist) && SlowestCandidate(dist).value.name == TopCandidate(dist).value.name
    ensures Decide(dist).value.kind != Concentrated
  {
  }

  /** `concentrated` is reported only when no candidate has an average, and then the
      reported reviewer is a top-count candidate holding more than half of all reviews. */
  lemma ConcentratedOnlyWithoutAverages(dist: seq<DistEntry>)
    requires Decide(dist).Some? && Decide(dist).value.kind == Concentrated
    ensures forall e :: e in dist && IsCandidate(e) ==> e.avgTimeToReviewHours.None?
    ensures Decide(dist).value.reviewShare > 0.5
    ensures Decide(dist).value.name == TopCandidate(dist).value.name
  {
  }

  lemma {:induction false} SumByAtLeast(dist: seq<DistEntry>, i: nat)
    requires i < |dist|
    ensures dist[i].reviewCount <= Total(dist)
  {
    if i > 0 {
      SumByAtLeast(dist[1..], i - 1);
      assert dist[1..][i - 1] == dist[i];
    }
  }

  // ---------------------------------------------------------------------------
  // Worked cases
  // ---------------------------------------------------------------------------

  /** Slowest at 10 hours against 5, and holding 6 of 10 reviews: `both`. */
  lemma BothExample()
    ensures Decide([DistEntry("X", 6, Some(10.0)), DistEntry("Y", 4, Some(5.0))])
            == Some(Bottleneck("X", Some(10.0), 0.6, Both))
  {
    BothDecision();
    ShareOfSixInTen(DistEntry("X", 6, Some(10.0)));
  }

  lemma BothDecision()
    ensures var d := [DistEntry("X", 6, Some(10.0)), DistEntry("Y", 4, Some(5.0))];
      Decide(d) == Some(Bottleneck(d[0].name, d[0].avgTimeToReviewHours, Share(d[0], 10), Both))
  {
    var x, y := DistEntry("X", 6, Some(10.0)), DistEntry("Y", 4, Some(5.0));
    TotalOfTwo(x, y);
    PickedOfTwo(x, y);
    ShareOfSixInTen(x);
    DecideBoth([x, y], x, 10);
  }

  /** A holds 6 of 10 reviews at 2 hours, B has 3 reviews at 8 hours: different people, and
      the slowest, B, is reported as `slow`. */
  lemma SplitExample()
    ensures Decide([DistEntry("A", 6, Some(2.0)), DistEntry("B", 3, Some(8.0)), DistEntry("C", 1, None)])
            == Some(Bottleneck("B", Some(8.0), 0.3, Slow))
  {
    SplitDecision();
    ShareOfThreeInTen(DistEntry("B", 3, Some(8.0)));
  }

  lemma SplitDecision()
    ensures var d := [DistEntry("A", 6, Some(2.0)), DistEntry("B", 3, Some(8.0)), DistEntry("C", 1, None)];
      Decide(d) == Some(Bottleneck(d[1].name, d[1].avgTimeToReviewHours, Share(d[1], 10), Slow))
  {
    var a, b, c := DistEntry("A", 6, Some(2.0)), DistEntry("B", 3, Some(8.0)), DistEntry("C", 1, None);
    TotalOfThree(a, b, c);
    PickedOfThree(a, b, c);
    assert b.name != a.name by { assert b.name[0] != a.name[0]; }
    DecideSlow([a, b, c], b, a, 10);
  }

  /** A reviewer with two reviews is not reported, however slow. */
  lemma TwoReviewsNeverReported()
    ensures Decide([DistEntry("S", 3, Some(1.0)), DistEntry("R", 2, Some(100.0))])
            == Some(Bottleneck("S", Some(1.0), 0.6, Both))
  {
    TwoReviewsDecision();
    ShareOfThreeInFive(DistEntry("S", 3, Some(1.0)));
  }

  lemma TwoReviewsDecision()
    ensures var d := [DistEntry("S", 3, Some(1.0)), DistEntry("R", 2, Some(100.0))];
      Decide(d) == Some(Bottleneck(d[0].name, d[0].avgTimeToReviewHours, Share(d[0], 5), Both))
  {
    var s, r := DistEntry("S", 3, Some(1.0)), DistEntry("R", 2, Some(100.0));
    TotalOfTwo(s, r);
    PickedOfTwo(s, r);
    ShareOfThreeInFive(s);
    DecideBoth([s, r], s, 5);
  }

  /** The decision when the slowest candidate is not, by name, the top-count candidate. */
  lemma DecideSlow(dist: seq<DistEntry>, s: DistEntry, t: DistEntry, total: nat)
    requires SlowestCandidate(dist) == Some(s) && TopCandidate(dist) == Some(t) && Total(dist) == total
    requires s.name != t.name
    ensures Decide(dist) == Some(Bottleneck(s.name, s.avgTimeToReviewHours, Share(s, total), Slow))
  {
  }

  /** The decision when one candidate is both the slowest and the top-count one, holding more
      than half of the reviews. */
  lemma DecideBoth(dist: seq<DistEntry>, s: DistEntry, total: nat)
    requires SlowestCandidate(dist) == Some(s) && TopCandidate(dist) == Some(s) && Total(dist) == total
    requires Share(s, total) > 0.5
    ensures Decide(dist) == Some(Bottleneck(s.name, s.avgTimeToReviewHours, Share(s, total), Both))
  {
  }

  lemma ShareOfSixInTen(e: DistEntry)
    requires e.reviewCount == 6
    ensures Share(e, 10) == 0.6
  {
  }

  lemma ShareOfThreeInTen(e: DistEntry)
    requires e.reviewCount == 3
    ensures Share(e, 10) == 0.3
  {
  }

  lemma ShareOfThreeInFive(e: DistEntry)
    requires e.reviewCount == 3
    ensures Share(e, 5) == 0.6
  {
  }

  /** The candidates picked from two entries, when the first is a candidate with an average
      that the second beats neither on average nor on count. */
  lemma PickedOfTwo(x: DistEntry, y: DistEntry)
    requires IsCandidate(x) && x.avgTimeToReviewHours.Some?
    requires IsCandidate(y) ==> y.reviewCount < x.reviewCount
    requires IsCandidate(y) && y.avgTimeToReviewHours.Some? ==> Avg(y) < Avg(x)
    ensures SlowestCandidate([x, y]) == Some(x) && TopCandidate([x, y]) == Some(x)
  {
    var d := [x, y];
    assert x in d;
    var s, t := SlowestCandidate(d).value, TopCandidate(d).value;
    assert s in d && t in d;
  }

  /** The candidates picked from three entries, when A and B are candidates with averages and
      C is not a candidate. */
  lemma PickedOfThree(a: DistEntry, b: DistEntry, c: DistEntry)
    requires IsCandidate(a) && a.avgTimeToReviewHours.Some?
    requires IsCandidate(b) && b.avgTimeToReviewHours.Some? && !IsCandidate(c)
    requires Avg(a) < Avg(b) && b.reviewCount < a.reviewCount
    ensures SlowestCandidate([a, b, c]) == Some(b) && TopCandidate([a, b, c]) == Some(a)
  {
    var d := [a, b, c];
    assert a in d && b in d;
    var s, t := SlowestCandidate(d).value, TopCandidate(d).value;
    assert s in d && t in d;
  }

  lemma TotalOfTwo(x: DistEntry, y: DistEntry)
    ensures Total([x, y]) == x.reviewCount + y.reviewCount
  {
    assert [x, y][1..] == [y] && [y][1..] == [];
    assert SumBy([y], EntryCount) == y.reviewCount + SumBy([], EntryCount);
  }

  lemma TotalOfThree(x: DistEntry, y: DistEntry, z: DistEntry)
    ensures Total([x, y, z]) == x.reviewCount + y.reviewCount + z.reviewCount
  {
    assert [x, y, z][1..] == [y, z];
    TotalOfTwo(y, z);
  }
}
