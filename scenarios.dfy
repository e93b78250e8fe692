/** Worked scenarios of the metric engine on concrete inputs. */
module Scenarios {
  import opened Outcomes
  import opened Classification
  import opened Ordering
  import opened Metrics

  /** TPR at fixed FPR on the curve fpr = [0, 0.05, 0.12, 1], tpr = [0, 0.4,
      0.7, 1]: the first point with FPR >= 0.01 gives 0.4, the first with
      FPR >= 0.1 gives 0.7. */
  lemma TprAtFprExample()
    ensures TprAtFpr([0.0, 0.05, 0.12, 1.0], [0.0, 0.4, 0.7, 1.0], LowFpr) == Success(0.4)
    ensures TprAtFpr([0.0, 0.05, 0.12, 1.0], [0.0, 0.4, 0.7, 1.0], HighFpr) == Success(0.7)
  {
    var fpr := [0.0, 0.05, 0.12, 1.0];
    assert IsOperatingIndex(fpr, LowFpr, 1);
    assert IsOperatingIndex(fpr, HighFpr, 2);
  }

  /** When no curve point reaches the target FPR the lookup falls back to
      index 0, the TPR at the curve's first point. */
  lemma TprAtFprFallback()
    ensures TprAtFpr([0.0, 0.005], [0.0, 0.3], LowFpr) == Success(0.0)
  {
    assert IsOperatingIndex([0.0, 0.005], LowFpr, 0);
  }

  /** Scores [0.1, 0.2, 0.2, 0.3] with labels [0, 1, 1, 0]: the candidates
      are 0.1, 0.2 and 0.3, and the best threshold is 0.1 with F1 = 0.8. */
  lemma TieBreakExample()
    ensures BestThreshold([0.1, 0.2, 0.2, 0.3], [0, 1, 1, 0]) == 0.1
    ensures F1At([0.1, 0.2, 0.2, 0.3], [0, 1, 1, 0], 0.1) == 0.8
  {
    var s: seq<real>, l: seq<Label> := [0.1, 0.2, 0.2, 0.3], [0, 1, 1, 0];
    TieBreakLow();
    TieBreakMiddle();
    TieBreakHigh();
    TieBreakCandidates();
    BestThresholdUnique(s, l, 0.1);
  }

  lemma TieBreakCandidates()
    ensures forall c :: c in [0.1, 0.2, 0.2, 0.3] ==> c == 0.1 || c == 0.2 || c == 0.3
  {
  }

  /** F1 of the three candidate thresholds of the tie-break example. */
  lemma TieBreakLow()
    ensures F1At([0.1, 0.2, 0.2, 0.3], [0, 1, 1, 0], 0.1) == 0.8
  {
    assert PredictAbove([0.1, 0.2, 0.2, 0.3], 0.1) == [false, true, true, true];
    assert F1([0, 1, 1, 0], [false, true, true, true]) == 0.8;
  }

  lemma TieBreakMiddle()
    ensures F1At([0.1, 0.2, 0.2, 0.3], [0, 1, 1, 0], 0.2) == 0.0
  {
    assert PredictAbove([0.1, 0.2, 0.2, 0.3], 0.2) == [false, false, false, true];
    assert F1([0, 1, 1, 0], [false, false, false, true]) == 0.0;
  }

  lemma TieBreakHigh()
    ensures F1At([0.1, 0.2, 0.2, 0.3], [0, 1, 1, 0], 0.3) == 0.0
  {
    assert PredictAbove([0.1, 0.2, 0.2, 0.3], 0.3) == [false, false, false, false];
    assert F1([0, 1, 1, 0], [false, false, false, false]) == 0.0;
  }

  /** Without members every candidate has F1 = 0, and the tie-break keeps
      the smallest score. */
  lemma NoMembersExample(s: seq<real>, l: seq<Label>)
    requires s == [0.3, 0.1, 0.2] && l == [0, 0, 0]
    ensures BestThreshold(s, l) == 0.1
  {
    var b := BestThreshold(s, l);
    assert b <= 0.1 by {
      NoMembersSelectsSmallestScore(s, l);
      assert 0.1 in s;
    }
    assert b in s;
  }

  /** The median of [0.9, 0.8, 0.3, 0.1] is the mean of 0.3 and 0.8. */
  lemma MedianExample(s: seq<real>)
    requires s == [0.9, 0.8, 0.3, 0.1]
    ensures Median(s) == 0.55
  {
    assert s[1..] == [0.8, 0.3, 0.1];
    SortExample(s);
    var r := Sort(s);
    assert |s| == 4 && r[1] == 0.3 && r[2] == 0.8;
  }

  lemma SortExample(s: seq<real>)
    requires |s| == 4 && s[0] == 0.9 && s[1..] == [0.8, 0.3, 0.1]
    ensures Sort(s) == [0.1, 0.3, 0.8, 0.9]
  {
    assert s[1..][1..] == [0.3, 0.1];
    SortThreeExample(s[1..]);
    SortAppendsLargest(s, [0.1, 0.3, 0.8]);
  }

  lemma SortThreeExample(s: seq<real>)
    requires |s| == 3 && s[0] == 0.8 && s[1..] == [0.3, 0.1]
    ensures Sort(s) == [0.1, 0.3, 0.8]
  {
    SortShortExample(s[1..]);
    SortAppendsLargest(s, [0.1, 0.3]);
  }

  lemma SortShortExample(s: seq<real>)
    requires s == [0.3, 0.1]
    ensures Sort(s) == [0.1, 0.3]
  {
    assert s[1..][1..] == [];
    SortAppendsLargest(s[1..], []);
    SortAppendsLargest(s, [0.1]);
  }

  /** One step of the insertion sort on a concrete sequence whose head is
      larger than everything already sorted. */
  lemma SortAppendsLargest(s: seq<real>, r: seq<real>)
    requires |s| > 0 && Sort(s[1..]) == r && forall y :: y in r ==> y < s[0]
    ensures Sort(s) == r + [s[0]]
  {
    InsertLargest(r, s[0]);
  }

  lemma {:induction false} InsertLargest(r: seq<real>, x: real)
    requires Sorted(r) && forall y :: y in r ==> y < x
    ensures InsertSorted(r, x) == r + [x]
  {
    if r != [] {
      assert r[0] in r;
      assert InsertSorted(r, x) == [r[0]] + InsertSorted(r[1..], x);
      assert forall y :: y in r[1..] ==> y in r;
      InsertLargest(r[1..], x);
      assert r == [r[0]] + r[1..];
    }
  }

  /** Perfectly separated scores [0.9, 0.8, 0.3, 0.1] with labels
      [1, 1, 0, 0]: the best threshold classifies every record correctly. */
  lemma PerfectSeparationBest(s: seq<real>, l: seq<Label>)
    requires s == [0.9, 0.8, 0.3, 0.1] && l == [1, 1, 0, 0]
    ensures F1At(s, l, BestThreshold(s, l)) == 1.0 && AccuracyAt(s, l, BestThreshold(s, l)) == 1.0
  {
    assert forall i :: 0 <= i < |s| ==> (l[i] == 1 <==> s[i] > 0.5);
    assert l[0] == 1 && l[2] == 0;
    SeparableGivesPerfectBest(s, l, 0.5);
  }

  /** On the same scores the median rule (median 0.55) classifies every
      record correctly too. */
  lemma PerfectSeparationMedian(s: seq<real>, l: seq<Label>)
    requires s == [0.9, 0.8, 0.3, 0.1] && l == [1, 1, 0, 0]
    ensures F1At(s, l, Median(s)) == 1.0 && AccuracyAt(s, l, Median(s)) == 1.0
  {
    MedianExample(s);
    PerfectSeparationAtMedian(s, l);
  }

  lemma PerfectSeparationAtMedian(s: seq<real>, l: seq<Label>)
    requires s == [0.9, 0.8, 0.3, 0.1] && l == [1, 1, 0, 0]
    ensures F1At(s, l, 0.55) == 1.0 && AccuracyAt(s, l, 0.55) == 1.0
  {
    assert PredictAbove(s, 0.55) == [true, true, false, false];
    assert F1([1, 1, 0, 0], [true, true, false, false]) == 1.0;
    assert Accuracy([1, 1, 0, 0], [true, true, false, false]) == 1.0;
  }

  /** End to end: whenever `_compute_metrics` succeeds on these scores, it
      reports accuracy 1 and F1 1 at both thresholds. */
  lemma PerfectSeparationExample(s: seq<real>, l: seq<Label>, ranking: Ranking)
    requires s == [0.9, 0.8, 0.3, 0.1] && l == [1, 1, 0, 0]
    requires ComputeMetrics(s, l, Some(ranking)).Success?
    ensures var m := ComputeMetrics(s, l, Some(ranking)).value;
            m.accuracyBest == 1.0 && m.f1Best == 1.0 && m.accuracyMedian == 1.0 && m.f1Median == 1.0
  {
    PerfectSeparationBest(s, l);
    PerfectSeparationMedian(s, l);
    ComputeMetricsThresholds(s, l, Some(ranking));
  }

}
