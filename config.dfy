/** The one computation in scripts/config.mjs: masking a personal access token for display. */
module Config {
  import opened Wrappers

  function Stars(n: nat): (r: string)
    ensures |r| == n && forall i :: 0 <= i < n ==> r[i] == '*'
  {
    if n == 0 then [] else Stars(n - 1) + ['*']
  }

  /** A missing, empty or short token becomes "***"; otherwise the first four and last
      four characters are shown and every character between them is a star. */
  function MaskPat(pat: Option<string>): (r: string)
    ensures pat.None? || |pat.value| < 8 ==> r == "***"
    ensures pat.Some? && |pat.value| >= 8 ==>
      var p := pat.value;
      && |r| == |p|
      && r[..4] == p[..4]
      && r[|p| - 4..] == p[|p| - 4..]
      && forall i :: 4 <= i < |p| - 4 ==> r[i] == '*'
  {
    if pat.None? || |pat.value| < 8 then "***"
    else
      var p := pat.value;
      p[..4] + Stars(|p| - 8) + p[|p| - 4..]
  }

  /** A token of exactly eight characters has no middle to hide and is shown whole. */
  lemma MaskPatEightUnchanged(p: string)
    requires |p| == 8
    ensures MaskPat(Some(p)) == p
  {
    var r := MaskPat(Some(p));
    assert r == r[..4] + r[4..];
    assert p == p[..4] + p[4..];
  }

  /** Masking hides exactly the middle: the unmasked ends determine the output, and two
      tokens of the same length with the same ends mask to the same string. */
  lemma MaskPatDependsOnlyOnEnds(p: string, q: string)
    requires |p| == |q| >= 8
    requires p[..4] == q[..4] && p[|p| - 4..] == q[|q| - 4..]
    ensures MaskPat(Some(p)) == MaskPat(Some(q))
  {
  }
}
