/** `mean` and `median`, written identically in scripts/pr-metrics.mjs and scripts/bugs.mjs:
    both give null for an empty list. */
module Stats {
  import opened Wrappers
  import opened Seqs

  function AscReal(a: real, b: real): bool { a <= b }

  /** The copy sorted with `(a, b) => a - b`. */
  function SortedCopy(s: seq<real>): (r: seq<real>)
    ensures multiset(r) == multiset(s)
  {
    SortBy(s, AscReal)
  }

  lemma SortedCopyOrdered(s: seq<real>)
    ensures Sorted(SortedCopy(s), AscReal)
  {
    SortBySorted(s, AscReal);
  }

  function Mean(s: seq<real>): (r: Option<real>)
    ensures r.None? <==> s == []
  {
    if s == [] then None else Some(SumReal(s) / |s| as real)
  }

  function Median(s: seq<real>): (r: Option<real>)
    ensures r.None? <==> s == []
  {
    if s == [] then None
    else
      var sorted := SortedCopy(s);
      var mid := |sorted| / 2;
      if |sorted| % 2 != 0 then Some(sorted[mid])
      else Some((sorted[mid - 1] + sorted[mid]) / 2.0)
  }

  /** The mean lies within any bounds that every sample respects. */
  lemma MeanWithin(s: seq<real>, lo: real, hi: real)
    requires s != []
    requires forall i :: 0 <= i < |s| ==> lo <= s[i] <= hi
    ensures lo <= Mean(s).value <= hi
  {
    SumRealBounds(s, lo, hi);
    var n := |s| as real;
    assert n * lo <= SumReal(s) <= n * hi;
    assert SumReal(s) / n >= lo by { assert SumReal(s) >= lo * n; }
    assert SumReal(s) / n <= hi by { assert SumReal(s) <= hi * n; }
  }

  /** Statistics of samples that are never negative are never negative. */
  lemma NonNegativeStats(s: seq<real>)
    requires s != []
    requires forall i :: 0 <= i < |s| ==> 0.0 <= s[i]
    ensures Mean(s).value >= 0.0 && Median(s).value >= 0.0
  {
    SumRealAtLeast(s, 0.0);
    var sorted := SortedCopy(s);
    forall k | 0 <= k < |sorted| ensures 0.0 <= sorted[k] {
      assert sorted[k] in multiset(sorted);
      assert sorted[k] in multiset(s);
    }
  }

  /** The median is the middle of the sorted copy: for an odd count it is one of the
      samples, and it always lies within any bounds that every sample respects. */
  lemma MedianWithin(s: seq<real>, lo: real, hi: real)
    requires s != []
    requires forall i :: 0 <= i < |s| ==> lo <= s[i] <= hi
    ensures lo <= Median(s).value <= hi
    ensures |s| % 2 == 1 ==> Median(s).value in s
  {
    var sorted := SortedCopy(s);
    forall k | 0 <= k < |sorted| ensures lo <= sorted[k] <= hi && sorted[k] in s {
      assert sorted[k] in multiset(sorted);
      assert sorted[k] in multiset(s);
    }
  }
}
