/** The metric engine of `BaseMIAModel._compute_metrics`: the median rule,
    the best-F1 threshold sweep with its first-maximum tie-break, accuracy and
    F1 at both thresholds, and the TPR read at two fixed FPR operating points.
    The ranking metrics and the ROC curve come from the ranking library and
    enter as an opaque `Ranking` value. */
module Metrics {
  import opened Outcomes
  import opened Classification
  import opened Ordering

  /** What the ranking library returns for one method: `roc_auc_score`,
      `average_precision_score`, the trapezoidal area under the
      precision-recall curve, and the ROC curve `(fpr, tpr, thresholds)`. */
  datatype Ranking = Ranking(
    aucroc: real,
    averagePrecision: real,
    prAuc: real,
    fpr: seq<real>,
    tpr: seq<real>,
    thresholds: seq<real>)

  /** The tuple `_compute_metrics` returns, field for field. */
  datatype MetricRecord = MetricRecord(
    accuracyMedian: real,
    accuracyBest: real,
    fpr: seq<real>,
    tpr: seq<real>,
    thresholds: seq<real>,
    aucroc: real,
    averagePrecision: real,
    prAuc: real,
    f1Median: real,
    f1Best: real,
    tprAtFpr001: real,
    tprAtFpr01: real)

  /** The exceptions `_compute_metrics` can raise. */
  datatype MetricsError =
    | EmptyScores          // np.argmax of the empty F1 list
    | LengthMismatch       // f1_score on scores and labels of different lengths
    | RankingFailed        // the ranking library raised (e.g. a single label class)
    | EmptyRocCurve        // argmax of an empty FPR mask
    | TprIndexOutOfRange   // the operating index is outside the TPR array

  /** The two operating points of the TPR lookup. */
  const LowFpr: real := 0.01
  const HighFpr: real := 0.1

  /** F1 of the rule "score > t". */
  function F1At(scores: seq<real>, labels: seq<Label>, t: real): real
    requires |labels| == |scores|
  {
    F1(labels, PredictAbove(scores, t))
  }

  /** Accuracy of the rule "score > t". */
  function AccuracyAt(scores: seq<real>, labels: seq<Label>, t: real): real
    requires |labels| == |scores| > 0
  {
    Accuracy(labels, PredictAbove(scores, t))
  }

  /** The F1 list of the sweep: one entry per candidate threshold, in order. */
  function F1Sweep(scores: seq<real>, labels: seq<Label>, candidates: seq<real>): (f1s: seq<real>)
    requires |labels| == |scores|
  {
    seq(|candidates|, k requires 0 <= k < |candidates| => F1At(scores, labels, candidates[k]))
  }

  /** `thresholds[np.argmax(f1_scores)]`: an observed score whose F1 is
      maximal among all observed scores, and the smallest such one. */
  function BestThreshold(scores: seq<real>, labels: seq<Label>): (t: real)
    requires |scores| > 0 && |labels| == |scores|
    ensures t in scores
    ensures forall c :: c in scores ==> F1At(scores, labels, c) <= F1At(scores, labels, t)
    ensures forall c :: c in scores && c < t ==> F1At(scores, labels, c) < F1At(scores, labels, t)
  {
    var th := Candidates(scores);
    assert scores[0] in th;
    var k := ArgMax(F1Sweep(scores, labels, th));
    SweepMaximum(scores, labels, th, k);
    th[k]
  }

  /** The arg-max of the sweep over the ascending candidates is a maximum
      over all observed scores, and no smaller score reaches it. */
  lemma SweepMaximum(scores: seq<real>, labels: seq<Label>, th: seq<real>, k: nat)
    requires |labels| == |scores| && th == Candidates(scores) && |th| > 0
    requires k == ArgMax(F1Sweep(scores, labels, th))
    ensures forall c :: c in scores ==> F1At(scores, labels, c) <= F1At(scores, labels, th[k])
    ensures forall c :: c in scores && c < th[k] ==> F1At(scores, labels, c) < F1At(scores, labels, th[k])
  {
    var f1s := F1Sweep(scores, labels, th);
    forall c | c in scores ensures F1At(scores, labels, c) <= F1At(scores, labels, th[k]) {
      var j :| 0 <= j < |th| && th[j] == c;
      assert f1s[j] <= f1s[k];
    }
    forall c | c in scores && c < th[k] ensures F1At(scores, labels, c) < F1At(scores, labels, th[k]) {
      var j :| 0 <= j < |th| && th[j] == c;
      IncreasingIndexOrder(th, j, k);
      assert f1s[j] < f1s[k];
    }
  }

  lemma IncreasingIndexOrder(th: seq<real>, j: nat, k: nat)
    requires StrictlyIncreasing(th) && j < |th| && k < |th| && th[j] < th[k]
    ensures j < k
  {
  }

  /** `i` is the operating index of `(fpr >= target).argmax()`: the first
      index reaching the target, or 0 when no index does. */
  ghost predicate IsOperatingIndex(fpr: seq<real>, target: real, i: nat) {
    && i < |fpr|
    && (forall j :: 0 <= j < i ==> fpr[j] < target)
    && (fpr[i] >= target || (i == 0 && forall j :: 0 <= j < |fpr| ==> fpr[j] < target))
  }

  /** `tpr[(fpr >= target).argmax()]`. */
  function TprAtFpr(fpr: seq<real>, tpr: seq<real>, target: real): (r: Result<real, MetricsError>)
    ensures |fpr| == 0 ==> r == Failure(EmptyRocCurve)
    ensures |fpr| > 0 ==> exists i: nat :: IsOperatingIndex(fpr, target, i)
    ensures forall i: nat :: IsOperatingIndex(fpr, target, i) ==>
              r == if i < |tpr| then Success(tpr[i]) else Failure(TprIndexOutOfRange)
  {
    if |fpr| == 0 then Failure(EmptyRocCurve)
    else
      var i := FirstAtLeast(fpr, target);
      FirstAtLeastMeaning(fpr, target);
      assert IsOperatingIndex(fpr, target, i);
      OperatingIndexUnique(fpr, target, i);
      if i < |tpr| then Success(tpr[i]) else Failure(TprIndexOutOfRange)
  }

  lemma OperatingIndexUnique(fpr: seq<real>, target: real, i: nat)
    requires IsOperatingIndex(fpr, target, i)
    ensures forall i': nat :: IsOperatingIndex(fpr, target, i') ==> i' == i
  {
    forall i': nat | IsOperatingIndex(fpr, target, i') ensures i' == i {
    }
  }

  /** `_compute_metrics(y_scores, y_true)` given what the ranking library
      returned for the same inputs (None when it raised). */
  function ComputeMetrics(scores: seq<real>, labels: seq<Label>, ranking: Option<Ranking>): (r: Result<MetricRecord, MetricsError>)
    ensures |scores| == 0 ==> r == Failure(EmptyScores)
    ensures |scores| > 0 && |labels| != |scores| ==> r == Failure(LengthMismatch)
    ensures |scores| > 0 && |labels| == |scores| && ranking.None? ==> r == Failure(RankingFailed)
    ensures r.Success? <==>
              && |scores| > 0 && |labels| == |scores| && ranking.Some?
              && TprAtFpr(ranking.value.fpr, ranking.value.tpr, LowFpr).Success?
              && TprAtFpr(ranking.value.fpr, ranking.value.tpr, HighFpr).Success?
  {
    if |scores| == 0 then Failure(EmptyScores)
    else if |labels| != |scores| then Failure(LengthMismatch)
    else if ranking.None? then Failure(RankingFailed)
    else
      var median := Median(scores);
      var best := BestThreshold(scores, labels);
      var rk := ranking.value;
      var low :- TprAtFpr(rk.fpr, rk.tpr, LowFpr);
      var high :- TprAtFpr(rk.fpr, rk.tpr, HighFpr);
      Success(MetricRecord(
        AccuracyAt(scores, labels, median),
        AccuracyAt(scores, labels, best),
        rk.fpr, rk.tpr, rk.thresholds,
        rk.aucroc, rk.averagePrecision, rk.prAuc,
        F1At(scores, labels, median),
        F1At(scores, labels, best),
        low, high))
  }

  /** The three properties `BestThreshold` promises determine it: the
      first-maximum tie-break leaves no choice. */
  lemma BestThresholdUnique(scores: seq<real>, labels: seq<Label>, t: real)
    requires |scores| > 0 && |labels| == |scores|
    requires t in scores
    requires forall c :: c in scores ==> F1At(scores, labels, c) <= F1At(scores, labels, t)
    requires forall c :: c in scores && c < t ==> F1At(scores, labels, c) < F1At(scores, labels, t)
    ensures t == BestThreshold(scores, labels)
  {
    var b := BestThreshold(scores, labels);
    assert F1At(scores, labels, b) <= F1At(scores, labels, t);
    assert F1At(scores, labels, t) <= F1At(scores, labels, b);
  }

  /** The largest observed score not above `t`. */
  lemma {:induction false} LargestAtMost(s: seq<real>, t: real) returns (c: real)
    requires exists i :: 0 <= i < |s| && s[i] <= t
    ensures c in s && c <= t
    ensures forall i :: 0 <= i < |s| && s[i] <= t ==> s[i] <= c
  {
    if s[0] <= t && forall i :: 1 <= i < |s| && s[i] <= t ==> s[i] <= s[0] {
      c := s[0];
    } else {
      var j :| 1 <= j < |s| && s[j] <= t;
      assert s[1..][j - 1] <= t;
      c := LargestAtMost(s[1..], t);
      forall i | 0 <= i < |s| && s[i] <= t ensures s[i] <= c {
        if i > 0 {
          assert s[1..][i - 1] == s[i];
        }
      }
    }
  }

  /** Any threshold at or above the smallest score splits the records as
      some candidate does, so the best threshold's F1 is at least its F1. */
  lemma BestThresholdOptimal(scores: seq<real>, labels: seq<Label>, t: real)
    requires |scores| > 0 && |labels| == |scores|
    requires exists i :: 0 <= i < |scores| && scores[i] <= t
    ensures F1At(scores, labels, t) <= F1At(scores, labels, BestThreshold(scores, labels))
  {
    var c := LargestAtMost(scores, t);
    assert PredictAbove(scores, c) == PredictAbove(scores, t);
  }

  /** With no member among the labels every F1 is 0, so the tie-break
      selects the smallest score. */
  lemma NoMembersSelectsSmallestScore(scores: seq<real>, labels: seq<Label>)
    requires |scores| > 0 && |labels| == |scores|
    requires forall i :: 0 <= i < |labels| ==> labels[i] == 0
    ensures forall c :: c in scores ==> BestThreshold(scores, labels) <= c
    ensures F1At(scores, labels, BestThreshold(scores, labels)) == 0.0
  {
    forall c | c in scores ensures F1At(scores, labels, c) == 0.0 {
      NoMembersNoTruePositives(labels, PredictAbove(scores, c));
      F1InUnitInterval(labels, PredictAbove(scores, c));
    }
  }

  /** When some threshold separates members from non-members exactly and both
      classes occur, the best threshold reaches F1 = 1 and accuracy = 1. */
  lemma SeparableGivesPerfectBest(scores: seq<real>, labels: seq<Label>, t: real)
    requires |scores| > 0 && |labels| == |scores|
    requires forall i :: 0 <= i < |scores| ==> (labels[i] == 1 <==> scores[i] > t)
    requires exists i :: 0 <= i < |labels| && labels[i] == 1
    requires exists i :: 0 <= i < |labels| && labels[i] == 0
    ensures F1At(scores, labels, BestThreshold(scores, labels)) == 1.0
    ensures AccuracyAt(scores, labels, BestThreshold(scores, labels)) == 1.0
  {
    var b := BestThreshold(scores, labels);
    PerfectPredictions(labels, PredictAbove(scores, t));
    F1InUnitInterval(labels, PredictAbove(scores, t));
    BestThresholdOptimal(scores, labels, t);
    F1InUnitInterval(labels, PredictAbove(scores, b));
    AccuracyInUnitInterval(labels, PredictAbove(scores, b));
  }

  /** What a successful `_compute_metrics` result says about thresholds: the
      median rule and the best threshold with their accuracy and F1, all in
      [0, 1], and the F1 at the best threshold is the maximum of the sweep. */
  lemma ComputeMetricsThresholds(scores: seq<real>, labels: seq<Label>, ranking: Option<Ranking>)
    requires ComputeMetrics(scores, labels, ranking).Success?
    ensures var m := ComputeMetrics(scores, labels, ranking).value;
            && |scores| > 0 && |labels| == |scores|
            && m.accuracyMedian == AccuracyAt(scores, labels, Median(scores))
            && m.f1Median == F1At(scores, labels, Median(scores))
            && m.f1Best == F1At(scores, labels, BestThreshold(scores, labels))
            && m.accuracyBest == AccuracyAt(scores, labels, BestThreshold(scores, labels))
            && m.f1Best in F1Sweep(scores, labels, Candidates(scores))
            && (forall f :: f in F1Sweep(scores, labels, Candidates(scores)) ==> f <= m.f1Best)
            && 0.0 <= m.accuracyMedian <= 1.0 && 0.0 <= m.accuracyBest <= 1.0
            && 0.0 <= m.f1Median <= 1.0 && 0.0 <= m.f1Best <= 1.0
  {
    var m := ComputeMetrics(scores, labels, ranking).value;
    var b, median := BestThreshold(scores, labels), Median(scores);
    assert m.accuracyMedian == AccuracyAt(scores, labels, median) && m.f1Median == F1At(scores, labels, median);
    assert m.accuracyBest == AccuracyAt(scores, labels, b) && m.f1Best == F1At(scores, labels, b);
    AccuracyInUnitInterval(labels, PredictAbove(scores, median));
    AccuracyInUnitInterval(labels, PredictAbove(scores, b));
    F1InUnitInterval(labels, PredictAbove(scores, median));
    F1InUnitInterval(labels, PredictAbove(scores, b));
    BestIsSweepMaximum(scores, labels);
  }

  /** What a successful `_compute_metrics` result says about the ROC curve:
      the two TPR values are read at the operating indices of FPR 0.01 and
      0.1, and the ranking outputs pass through unchanged. */
  lemma ComputeMetricsOperatingPoints(scores: seq<real>, labels: seq<Label>, ranking: Option<Ranking>)
    requires ComputeMetrics(scores, labels, ranking).Success?
    ensures var m, rk := ComputeMetrics(scores, labels, ranking).value, ranking.value;
            && (forall i: nat :: IsOperatingIndex(rk.fpr, LowFpr, i) ==> i < |rk.tpr| && m.tprAtFpr001 == rk.tpr[i])
            && (forall i: nat :: IsOperatingIndex(rk.fpr, HighFpr, i) ==> i < |rk.tpr| && m.tprAtFpr01 == rk.tpr[i])
            && m.fpr == rk.fpr && m.tpr == rk.tpr && m.thresholds == rk.thresholds
            && m.aucroc == rk.aucroc && m.averagePrecision == rk.averagePrecision && m.prAuc == rk.prAuc
  {
    var rk := ranking.value;
    var m := ComputeMetrics(scores, labels, ranking).value;
    assert m.tprAtFpr001 == TprAtFpr(rk.fpr, rk.tpr, LowFpr).value;
    assert m.tprAtFpr01 == TprAtFpr(rk.fpr, rk.tpr, HighFpr).value;
  }

  /** `f1_best` is recomputed from the same rule `score > best_threshold`, so
      it is the largest entry of the F1 list of the sweep. */
  lemma BestIsSweepMaximum(scores: seq<real>, labels: seq<Label>)
    requires |scores| > 0 && |labels| == |scores|
    ensures var f1s, best := F1Sweep(scores, labels, Candidates(scores)), F1At(scores, labels, BestThreshold(scores, labels));
            best in f1s && forall f :: f in f1s ==> f <= best
  {
    var th := Candidates(scores);
    var f1s := F1Sweep(scores, labels, th);
    var b := BestThreshold(scores, labels);
    assert b in th;
    var k :| 0 <= k < |th| && th[k] == b;
    assert f1s[k] == F1At(scores, labels, b);
    forall f | f in f1s ensures f <= F1At(scores, labels, b) {
      var j :| 0 <= j < |f1s| && f1s[j] == f;
      CandidateIsScore(scores, th, j);
    }
  }

  lemma CandidateIsScore(scores: seq<real>, th: seq<real>, j: nat)
    requires th == Candidates(scores) && j < |th|
    ensures th[j] in scores
  {
  }
}
