/** The order-based building blocks of the metric engine: `np.sort`,
    `np.unique`, `np.median` and `np.argmax`, stated over sequences of reals. */
module Ordering {

  ghost predicate Sorted(s: seq<real>) {
    forall i, j :: 0 <= i <= j < |s| ==> s[i] <= s[j]
  }

  ghost predicate StrictlyIncreasing(s: seq<real>) {
    forall i, j :: 0 <= i < j < |s| ==> s[i] < s[j]
  }

  /** Inserts `x` into a sorted sequence, keeping duplicates. */
  function InsertSorted(r: seq<real>, x: real): (q: seq<real>)
    requires Sorted(r)
    ensures Sorted(q)
    ensures |q| == |r| + 1
    ensures multiset(q) == multiset(r) + multiset{x}
    ensures q[0] == x || (r != [] && q[0] == r[0])
  {
    if r == [] || x <= r[0] then [x] + r
    else
      assert r == [r[0]] + r[1..];
      var rest := InsertSorted(r[1..], x);
      assert r[0] <= rest[0];
      [r[0]] + rest
  }

  /** `np.sort`: the scores in ascending order, duplicates kept. */
  function Sort(s: seq<real>): (r: seq<real>)
    ensures Sorted(r)
    ensures |r| == |s|
    ensures multiset(r) == multiset(s)
  {
    if s == [] then []
    else
      assert s == [s[0]] + s[1..];
      InsertSorted(Sort(s[1..]), s[0])
  }

  /** Number of scores strictly above `t`. */
  function CountAbove(s: seq<real>, t: real): (n: nat)
    ensures n <= |s|
  {
    if s == [] then 0 else (if s[0] > t then 1 else 0) + CountAbove(s[1..], t)
  }

  /** Number of scores strictly below `t`. */
  function CountBelow(s: seq<real>, t: real): (n: nat)
    ensures n <= |s|
  {
    if s == [] then 0 else (if s[0] < t then 1 else 0) + CountBelow(s[1..], t)
  }

  lemma {:induction false} InsertSortedCounts(r: seq<real>, x: real, t: real)
    requires Sorted(r)
    ensures CountAbove(InsertSorted(r, x), t) == CountAbove(r, t) + (if x > t then 1 else 0)
    ensures CountBelow(InsertSorted(r, x), t) == CountBelow(r, t) + (if x < t then 1 else 0)
  {
    if r == [] || x <= r[0] {
      assert InsertSorted(r, x)[1..] == r;
    } else {
      InsertSortedCounts(r[1..], x, t);
      assert InsertSorted(r, x)[1..] == InsertSorted(r[1..], x);
    }
  }

  /** Sorting does not change how many scores lie above or below a value. */
  lemma {:induction false} SortCounts(s: seq<real>, t: real)
    ensures CountAbove(Sort(s), t) == CountAbove(s, t)
    ensures CountBelow(Sort(s), t) == CountBelow(s, t)
  {
    if s != [] {
      SortCounts(s[1..], t);
      InsertSortedCounts(Sort(s[1..]), s[0], t);
    }
  }

  /** In a sorted sequence whose k-th element is at most t, at most the
      elements after position k exceed t. */
  lemma {:induction false} SortedCountAbove(r: seq<real>, k: nat, t: real)
    requires Sorted(r) && k < |r| && r[k] <= t
    ensures CountAbove(r, t) <= |r| - k - 1
  {
    if k > 0 {
      SortedCountAbove(r[1..], k - 1, t);
    }
  }

  /** In a sorted sequence whose k-th element is at least t, at most the
      elements before position k fall below t. */
  lemma {:induction false} SortedCountBelow(r: seq<real>, k: nat, t: real)
    requires Sorted(r) && k < |r| && r[k] >= t
    ensures CountBelow(r, t) <= k
  {
    if k > 0 {
      SortedCountBelow(r[1..], k - 1, t);
    } else if |r| > 1 {
      SortedCountBelow(r[1..], 0, t);
    }
  }

  /** `np.median`: the middle element of the sorted scores, or the mean of
      the two middle elements when their number is even. */
  function Median(s: seq<real>): real
    requires |s| > 0
  {
    var r := Sort(s);
    var n := |s|;
    if n % 2 == 1 then r[n / 2] else (r[n / 2 - 1] + r[n / 2]) / 2.0
  }

  /** The median splits the scores in halves: at most half of them lie
      strictly above it and at most half strictly below it. */
  lemma MedianSplitsInHalves(s: seq<real>)
    requires |s| > 0
    ensures CountAbove(s, Median(s)) <= |s| / 2
    ensures CountBelow(s, Median(s)) <= |s| / 2
  {
    var r, n, m := Sort(s), |s|, Median(s);
    assert multiset(r) == multiset(s);
    assert |r| == n by {
      assert |multiset(r)| == |r| && |multiset(s)| == |s|;
    }
    SortCounts(s, m);
    if n % 2 == 1 {
      SortedCountAbove(r, n / 2, m);
      SortedCountBelow(r, n / 2, m);
    } else {
      assert r[n / 2 - 1] <= r[n / 2];
      SortedCountAbove(r, n / 2 - 1, m);
      SortedCountBelow(r, n / 2, m);
    }
  }

  /** The median lies between the smallest and the largest score. */
  lemma MedianWithinRange(s: seq<real>)
    requires |s| > 0
    ensures exists i :: 0 <= i < |s| && s[i] <= Median(s)
    ensures exists j :: 0 <= j < |s| && Median(s) <= s[j]
  {
    var r, n := Sort(s), |s|;
    assert |r| == n by {
      assert |multiset(r)| == |r| && |multiset(s)| == |s|;
    }
    var lo, hi := r[(n - 1) / 2], r[n / 2];
    assert lo <= Median(s) <= hi by {
      if n % 2 == 1 {
        assert (n - 1) / 2 == n / 2;
      } else {
        assert (n - 1) / 2 == n / 2 - 1;
        assert lo <= hi;
      }
    }
    assert lo in multiset(s) && hi in multiset(s);
    var i :| 0 <= i < |s| && s[i] == lo;
    var j :| 0 <= j < |s| && s[j] == hi;
  }

  /** Inserts `x` into a strictly increasing sequence unless it is present. */
  function InsertDistinct(r: seq<real>, x: real): (q: seq<real>)
    requires StrictlyIncreasing(r)
    ensures StrictlyIncreasing(q)
    ensures forall y :: y in q <==> y in r || y == x
  {
    if r == [] || x < r[0] then [x] + r
    else if x == r[0] then r
    else
      assert forall y :: y in r <==> y == r[0] || y in r[1..];
      var rest := InsertDistinct(r[1..], x);
      assert forall j :: 0 <= j < |rest| ==> rest[j] in rest;
      [r[0]] + rest
  }

  /** `np.sort(np.unique(scores))`: the distinct scores in ascending order. */
  function Candidates(s: seq<real>): (r: seq<real>)
    ensures StrictlyIncreasing(r)
    ensures forall y :: y in r <==> y in s
  {
    if s == [] then []
    else
      assert forall y :: y in s <==> y == s[0] || y in s[1..];
      InsertDistinct(Candidates(s[1..]), s[0])
  }

  /** `np.argmax`: the index of the first maximum. */
  function ArgMax(xs: seq<real>): (i: nat)
    requires |xs| > 0
    ensures i < |xs|
    ensures forall j :: 0 <= j < |xs| ==> xs[j] <= xs[i]
    ensures forall j :: 0 <= j < i ==> xs[j] < xs[i]
  {
    if |xs| == 1 then 0
    else
      var k := ArgMax(xs[..|xs| - 1]);
      if xs[|xs| - 1] > xs[k] then |xs| - 1 else k
  }

  /** `(xs >= target).argmax()`: numpy's argmax over the boolean mask, with
      True counted as 1 and False as 0. */
  function FirstAtLeast(xs: seq<real>, target: real): (i: nat)
    requires |xs| > 0
    ensures i < |xs|
  {
    ArgMax(seq(|xs|, j requires 0 <= j < |xs| => if xs[j] >= target then 1.0 else 0.0))
  }

  /** The mask's argmax is the first index reaching the target, or 0 when no
      index does. */
  lemma FirstAtLeastMeaning(xs: seq<real>, target: real)
    requires |xs| > 0
    ensures var i := FirstAtLeast(xs, target);
            && ((exists j :: 0 <= j < |xs| && xs[j] >= target) ==>
                  xs[i] >= target && forall j :: 0 <= j < i ==> xs[j] < target)
            && ((forall j :: 0 <= j < |xs| ==> xs[j] < target) ==> i == 0)
  {
    var mask := seq(|xs|, j requires 0 <= j < |xs| => if xs[j] >= target then 1.0 else 0.0);
    var i := FirstAtLeast(xs, target);
    assert i == ArgMax(mask);
    if exists j :: 0 <= j < |xs| && xs[j] >= target {
      var j :| 0 <= j < |xs| && xs[j] >= target;
      assert mask[j] <= mask[i];
      forall j | 0 <= j < i ensures xs[j] < target {
        assert mask[j] < mask[i];
      }
    } else {
      assert mask[0] == 0.0 && mask[i] == 0.0;
    }
  }
}
