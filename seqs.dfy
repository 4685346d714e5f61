/** Sequence folds shared by the three scripts: counting, summing, and the stable
    comparator sort that `Array.prototype.sort` performs. */
module Seqs {

  /** Number of elements of `s` that satisfy `p`. */
  function Count<T>(s: seq<T>, p: T -> bool): (n: nat)
    ensures n <= |s|
    ensures n == 0 <==> forall i :: 0 <= i < |s| ==> !p(s[i])
  {
    if s == [] then 0 else Count(s[..|s| - 1], p) + (if p(s[|s| - 1]) then 1 else 0)
  }

  /** Counting from the front: the first element adds one when it satisfies `p`. */
  lemma {:induction false} CountCons<T>(x: T, s: seq<T>, p: T -> bool)
    ensures Count([x] + s, p) == (if p(x) then 1 else 0) + Count(s, p)
  {
    if s != [] {
      var t := s[..|s| - 1];
      CountCons(x, t, p);
      assert ([x] + s)[..|[x] + s| - 1] == [x] + t;
    }
  }

  /** The elements of `s` that satisfy `p`, in order (`Array.prototype.filter`). */
  function Filter<T>(s: seq<T>, p: T -> bool): (r: seq<T>)
    ensures |r| == Count(s, p)
    ensures forall x :: x in r ==> x in s && p(x)
  {
    if s == [] then [] else
      Filter(s[..|s| - 1], p) + (if p(s[|s| - 1]) then [s[|s| - 1]] else [])
  }

  lemma {:induction false} FilterKeeps<T>(s: seq<T>, p: T -> bool, x: T)
    requires x in s && p(x)
    ensures x in Filter(s, p)
  {
    if s[|s| - 1] != x {
      assert x in s[..|s| - 1] by {
        var i :| 0 <= i < |s| && s[i] == x;
        assert i < |s| - 1;
        assert s[..|s| - 1][i] == x;
      }
      FilterKeeps(s[..|s| - 1], p, x);
    }
  }

  function SumInt(s: seq<int>): int {
    if s == [] then 0 else SumInt(s[..|s| - 1]) + s[|s| - 1]
  }

  function SumReal(s: seq<real>): real {
    if s == [] then 0.0 else SumReal(s[..|s| - 1]) + s[|s| - 1]
  }

  /** Bounds on every element bound the sum. */
  lemma {:induction false} SumRealBounds(s: seq<real>, lo: real, hi: real)
    requires forall i :: 0 <= i < |s| ==> lo <= s[i] <= hi
    ensures |s| as real * lo <= SumReal(s) <= |s| as real * hi
  {
    if s != [] {
      SumRealBounds(s[..|s| - 1], lo, hi);
      assert lo <= s[|s| - 1] <= hi;
    }
  }

  /** Sum of `f` over the elements of `s` (`reduce((sum, x) => sum + f(x), 0)`). */
  function SumBy<T>(s: seq<T>, f: T -> nat): nat {
    if s == [] then 0 else f(s[0]) + SumBy(s[1..], f)
  }

  lemma {:induction false} SumByAppend<T>(s: seq<T>, x: T, f: T -> nat)
    ensures SumBy(s + [x], f) == SumBy(s, f) + f(x)
  {
    if s != [] {
      assert (s + [x])[1..] == s[1..] + [x];
      SumByAppend(s[1..], x, f);
    }
  }

  /** Replacing one element changes the sum by the difference of the two values. */
  lemma {:induction false} SumByUpdate<T>(s: seq<T>, i: nat, x: T, f: T -> nat)
    requires i < |s|
    ensures SumBy(s[i := x], f) + f(s[i]) == SumBy(s, f) + f(x)
  {
    if i > 0 {
      assert s[i := x][1..] == s[1..][i - 1 := x];
      SumByUpdate(s[1..], i - 1, x, f);
    }
  }

  lemma {:induction false} SumByInsert<T>(x: T, l: seq<T>, le: (T, T) -> bool, f: T -> nat)
    ensures SumBy(Insert(x, l, le), f) == f(x) + SumBy(l, f)
  {
    if l != [] && !le(x, l[0]) {
      SumByInsert(x, l[1..], le, f);
    }
  }

  /** Sorting does not change a sum. */
  lemma {:induction false} SumBySortBy<T>(s: seq<T>, le: (T, T) -> bool, f: T -> nat)
    ensures SumBy(SortBy(s, le), f) == SumBy(s, f)
  {
    if s != [] {
      SumBySortBy(s[1..], le, f);
      SumByInsert(s[0], SortBy(s[1..], le), le, f);
    }
  }

  lemma {:induction false} SumRealAtLeast(s: seq<real>, lo: real)
    requires forall i :: 0 <= i < |s| ==> lo <= s[i]
    ensures |s| as real * lo <= SumReal(s)
  {
    if s != [] {
      SumRealAtLeast(s[..|s| - 1], lo);
      assert lo <= s[|s| - 1];
    }
  }

  ghost predicate Distinct<T>(s: seq<T>) {
    forall i, j :: 0 <= i < j < |s| ==> s[i] != s[j]
  }

  // ---------------------------------------------------------------------------
  // Comparator sort
  // ---------------------------------------------------------------------------

  /** `le(a, b)` says that `a` may stand before `b` (the comparator returns <= 0). */
  ghost predicate TotalPreorder<T(!new)>(le: (T, T) -> bool) {
    && (forall a, b :: le(a, b) || le(b, a))
    && (forall a, b, c :: le(a, b) && le(b, c) ==> le(a, c))
  }

  ghost predicate Sorted<T>(s: seq<T>, le: (T, T) -> bool) {
    forall i, j :: 0 <= i < j < |s| ==> le(s[i], s[j])
  }

  /** Inserts `x` before the first element it may precede, so that `x`, which came
      earlier in the input, stays ahead of the elements it ties with. */
  function Insert<T>(x: T, l: seq<T>, le: (T, T) -> bool): (r: seq<T>)
    ensures multiset(r) == multiset(l) + multiset{x}
    ensures |r| == |l| + 1
  {
    if l == [] || le(x, l[0]) then [x] + l
    else
      assert l == [l[0]] + l[1..];
      [l[0]] + Insert(x, l[1..], le)
  }

  /** Stable insertion sort: the result of `[...s].sort(cmp)` for a consistent comparator. */
  function SortBy<T>(s: seq<T>, le: (T, T) -> bool): (r: seq<T>)
    ensures multiset(r) == multiset(s)
    ensures |r| == |s|
  {
    if s == [] then []
    else
      assert s == [s[0]] + s[1..];
      Insert(s[0], SortBy(s[1..], le), le)
  }

  lemma {:induction false} InsertSorted<T(!new)>(x: T, l: seq<T>, le: (T, T) -> bool)
    requires TotalPreorder(le)
    requires Sorted(l, le)
    ensures Sorted(Insert(x, l, le), le)
  {
    if l == [] || le(x, l[0]) {
      var r := [x] + l;
      forall i, j | 0 <= i < j < |r| ensures le(r[i], r[j]) {
        if i == 0 {
          if j > 1 { assert le(l[0], l[j - 1]); }
        } else {
          assert le(l[i - 1], l[j - 1]);
        }
      }
    } else {
      assert le(l[0], x);
      InsertSorted(x, l[1..], le);
      var t := Insert(x, l[1..], le);
      var r := [l[0]] + t;
      forall k | 0 <= k < |t| ensures le(l[0], t[k]) {
        assert t[k] in multiset(t);
        assert t[k] == x || t[k] in multiset(l[1..]);
        if t[k] != x {
          var m :| 0 <= m < |l[1..]| && l[1..][m] == t[k];
          assert le(l[0], l[m + 1]);
        }
      }
      forall i, j | 0 <= i < j < |r| ensures le(r[i], r[j]) {
        if i == 0 { assert le(l[0], t[j - 1]); }
        else { assert le(t[i - 1], t[j - 1]); }
      }
    }
  }

  /** The sorted copy is ordered by any comparator that is a total preorder. */
  lemma {:induction false} SortBySorted<T(!new)>(s: seq<T>, le: (T, T) -> bool)
    requires TotalPreorder(le)
    ensures Sorted(SortBy(s, le), le)
  {
    if s != [] {
      SortBySorted(s[1..], le);
      InsertSorted(s[0], SortBy(s[1..], le), le);
    }
  }

  /** Sorting keeps the same elements: membership is preserved both ways. */
  lemma SortByMembers<T>(s: seq<T>, le: (T, T) -> bool, x: T)
    ensures x in SortBy(s, le) <==> x in s
  {
    var r := SortBy(s, le);
    assert x in r <==> x in multiset(r);
    assert x in s <==> x in multiset(s);
  }

  // ---------------------------------------------------------------------------
  // Lexicographic order on strings, standing for `localeCompare`
  // ---------------------------------------------------------------------------

  /** `a` sorts no later than `b` when compared code point by code point. */
  predicate LexLe(a: string, b: string) {
    if a == [] then true
    else if b == [] then false
    else if a[0] != b[0] then a[0] < b[0]
    else LexLe(a[1..], b[1..])
  }

  lemma {:induction false} LexLeTotal(a: string, b: string)
    ensures LexLe(a, b) || LexLe(b, a)
  {
    if a != [] && b != [] && a[0] == b[0] {
      LexLeTotal(a[1..], b[1..]);
    }
  }

  lemma {:induction false} LexLeTransitive(a: string, b: string, c: string)
    requires LexLe(a, b) && LexLe(b, c)
    ensures LexLe(a, c)
  {
    if a != [] && b != [] && c != [] && a[0] == b[0] && b[0] == c[0] {
      LexLeTransitive(a[1..], b[1..], c[1..]);
    }
  }

  lemma {:induction false} LexLeAntisymmetric(a: string, b: string)
    requires LexLe(a, b) && LexLe(b, a)
    ensures a == b
  {
    if a != [] && b != [] {
      LexLeAntisymmetric(a[1..], b[1..]);
      assert a == [a[0]] + a[1..];
      assert b == [b[0]] + b[1..];
    }
  }
}
