/** Binary classification primitives used by the metric engine: the
    "score > threshold" rule, the confusion counts, accuracy and F1.
    They follow the standard definitions that `accuracy_score` and `f1_score`
    implement (unweighted); F1 is 0 when its denominator is 0, which is the
    library's zero-division convention. */
module Classification {

  /** A ground-truth membership label: 1 = member, 0 = non-member. */
  type Label = x: int | 0 <= x <= 1

  /** `y_scores > t`: record i is predicted a member iff its score exceeds t. */
  function PredictAbove(scores: seq<real>, t: real): (p: seq<bool>)
  {
    seq(|scores|, i requires 0 <= i < |scores| => scores[i] > t)
  }

  /** Number of positions whose label is `l` and whose prediction is `p`. */
  function Count(labels: seq<Label>, preds: seq<bool>, l: Label, p: bool): (n: nat)
    requires |labels| == |preds|
    ensures n <= |labels|
  {
    if labels == [] then 0
    else (if labels[0] == l && preds[0] == p then 1 else 0) + Count(labels[1..], preds[1..], l, p)
  }

  function TruePositives(labels: seq<Label>, preds: seq<bool>): nat
    requires |labels| == |preds|
  {
    Count(labels, preds, 1, true)
  }

  function FalsePositives(labels: seq<Label>, preds: seq<bool>): nat
    requires |labels| == |preds|
  {
    Count(labels, preds, 0, true)
  }

  function FalseNegatives(labels: seq<Label>, preds: seq<bool>): nat
    requires |labels| == |preds|
  {
    Count(labels, preds, 1, false)
  }

  function TrueNegatives(labels: seq<Label>, preds: seq<bool>): nat
    requires |labels| == |preds|
  {
    Count(labels, preds, 0, false)
  }

  /** Number of positions where the prediction agrees with the label. */
  function Matches(labels: seq<Label>, preds: seq<bool>): nat
    requires |labels| == |preds|
  {
    if labels == [] then 0
    else (if (labels[0] == 1) == preds[0] then 1 else 0) + Matches(labels[1..], preds[1..])
  }

  /** Every record falls in exactly one confusion cell, and the matches are
      the true positives plus the true negatives. */
  lemma {:induction false} ConfusionPartition(labels: seq<Label>, preds: seq<bool>)
    requires |labels| == |preds|
    ensures TruePositives(labels, preds) + FalsePositives(labels, preds)
          + FalseNegatives(labels, preds) + TrueNegatives(labels, preds) == |labels|
    ensures Matches(labels, preds) == TruePositives(labels, preds) + TrueNegatives(labels, preds)
  {
    if labels != [] {
      ConfusionPartition(labels[1..], preds[1..]);
    }
  }

  /** Predictions that agree with every label leave no false positive and no
      false negative, and find every member. */
  lemma {:induction false} PerfectPredictions(labels: seq<Label>, preds: seq<bool>)
    requires |labels| == |preds|
    requires forall i :: 0 <= i < |labels| ==> preds[i] == (labels[i] == 1)
    ensures FalsePositives(labels, preds) == 0 && FalseNegatives(labels, preds) == 0
    ensures (exists i :: 0 <= i < |labels| && labels[i] == 1) ==> TruePositives(labels, preds) > 0
  {
    if labels != [] {
      PerfectPredictions(labels[1..], preds[1..]);
      if exists i :: 0 <= i < |labels| && labels[i] == 1 {
        var i :| 0 <= i < |labels| && labels[i] == 1;
        if i > 0 {
          assert labels[1..][i - 1] == 1;
        }
      }
    }
  }

  /** Without any member among the labels no prediction is a true positive. */
  lemma {:induction false} NoMembersNoTruePositives(labels: seq<Label>, preds: seq<bool>)
    requires |labels| == |preds|
    requires forall i :: 0 <= i < |labels| ==> labels[i] == 0
    ensures TruePositives(labels, preds) == 0
  {
    if labels != [] {
      NoMembersNoTruePositives(labels[1..], preds[1..]);
    }
  }

  /** `accuracy_score`: the fraction of records whose prediction equals the label. */
  function Accuracy(labels: seq<Label>, preds: seq<bool>): real
    requires |labels| == |preds| > 0
  {
    Matches(labels, preds) as real / |labels| as real
  }

  /** `f1_score` for the positive label 1: 2TP / (2TP + FP + FN), and 0 when
      that denominator is 0. */
  function F1(labels: seq<Label>, preds: seq<bool>): real
    requires |labels| == |preds|
  {
    var tp, fp, fn := TruePositives(labels, preds), FalsePositives(labels, preds), FalseNegatives(labels, preds);
    if 2 * tp + fp + fn == 0 then 0.0 else (2 * tp) as real / (2 * tp + fp + fn) as real
  }

  /** Accuracy lies in [0, 1], and it is 1 exactly when there are no false
      positives and no false negatives. */
  lemma AccuracyInUnitInterval(labels: seq<Label>, preds: seq<bool>)
    requires |labels| == |preds| > 0
    ensures 0.0 <= Accuracy(labels, preds) <= 1.0
    ensures Accuracy(labels, preds) == 1.0 <==> FalsePositives(labels, preds) == 0 && FalseNegatives(labels, preds) == 0
  {
    ConfusionPartition(labels, preds);
    FractionBounds(Matches(labels, preds), |labels|);
  }

  /** F1 lies in [0, 1]; it is 1 exactly when some member is found and no
      record is misclassified, and 0 exactly when no member is found. */
  lemma F1InUnitInterval(labels: seq<Label>, preds: seq<bool>)
    requires |labels| == |preds|
    ensures 0.0 <= F1(labels, preds) <= 1.0
    ensures F1(labels, preds) == 1.0 <==>
              TruePositives(labels, preds) > 0 && FalsePositives(labels, preds) == 0 && FalseNegatives(labels, preds) == 0
    ensures F1(labels, preds) == 0.0 <==> TruePositives(labels, preds) == 0
  {
    var tp, fp, fn := TruePositives(labels, preds), FalsePositives(labels, preds), FalseNegatives(labels, preds);
    if 2 * tp + fp + fn != 0 {
      FractionBounds(2 * tp, 2 * tp + fp + fn);
    }
  }

  /** `precision_score`: TP / (TP + FP), 0 when nothing is predicted a member. */
  function Precision(labels: seq<Label>, preds: seq<bool>): (r: real)
    requires |labels| == |preds|
    ensures 0.0 <= r <= 1.0
    ensures r > 0.0 <==> TruePositives(labels, preds) > 0
  {
    var tp, fp := TruePositives(labels, preds), FalsePositives(labels, preds);
    if tp + fp == 0 then 0.0 else FractionBounds(tp, tp + fp); tp as real / (tp + fp) as real
  }

  /** `recall_score`: TP / (TP + FN), 0 when there is no member. */
  function Recall(labels: seq<Label>, preds: seq<bool>): (r: real)
    requires |labels| == |preds|
    ensures 0.0 <= r <= 1.0
    ensures r > 0.0 <==> TruePositives(labels, preds) > 0
  {
    var tp, fn := TruePositives(labels, preds), FalseNegatives(labels, preds);
    if tp + fn == 0 then 0.0 else FractionBounds(tp, tp + fn); tp as real / (tp + fn) as real
  }

  /** The harmonic mean of two rates, not both zero. */
  function HarmonicMean(p: real, r: real): real
    requires p + r > 0.0
  {
    2.0 * p * r / (p + r)
  }

  /** Where some member is found, F1 is the harmonic mean of precision and
      recall, the textbook definition. */
  lemma F1IsHarmonicMean(labels: seq<Label>, preds: seq<bool>)
    requires |labels| == |preds|
    requires TruePositives(labels, preds) > 0
    ensures F1(labels, preds) == HarmonicMean(Precision(labels, preds), Recall(labels, preds))
  {
    RatesOfCounts(labels, preds);
    HarmonicMeanOfRatios(TruePositives(labels, preds), FalsePositives(labels, preds), FalseNegatives(labels, preds),
                         Precision(labels, preds), Recall(labels, preds), F1(labels, preds));
  }

  lemma RatesOfCounts(labels: seq<Label>, preds: seq<bool>)
    requires |labels| == |preds|
    requires TruePositives(labels, preds) > 0
    ensures var tp, fp, fn := TruePositives(labels, preds), FalsePositives(labels, preds), FalseNegatives(labels, preds);
      && Precision(labels, preds) == tp as real / (tp + fp) as real
      && Recall(labels, preds) == tp as real / (tp + fn) as real
      && F1(labels, preds) == (2 * tp) as real / (2 * tp + fp + fn) as real
  {
  }

  lemma HarmonicMeanOfRatios(tp: nat, fp: nat, fn: nat, p: real, r: real, f: real)
    requires tp > 0
    requires p == tp as real / (tp + fp) as real && r == tp as real / (tp + fn) as real
    requires f == (2 * tp) as real / (2 * tp + fp + fn) as real
    ensures p + r > 0.0 && f == HarmonicMean(p, r)
  {
    var a, x, y := tp as real, (tp + fp) as real, (tp + fn) as real;
    HarmonicOfFractions(a, x, y);
    assert x + y == (2 * tp + fp + fn) as real && 2.0 * a == (2 * tp) as real;
  }

  /** The harmonic mean of a/x and a/y is 2a / (x + y). */
  lemma HarmonicOfFractions(a: real, x: real, y: real)
    requires a > 0.0 && x > 0.0 && y > 0.0
    ensures a / x + a / y > 0.0 && 2.0 * (a / x) * (a / y) / (a / x + a / y) == 2.0 * a / (x + y)
  {
    var p, r := a / x, a / y;
    assert p * x == a && r * y == a;
    if p <= 0.0 {
      ScaleSign(-p, x);
    }
    if r <= 0.0 {
      ScaleSign(-r, y);
    }
    HarmonicCore(a, x, y, p, r);
    Quotient(2.0 * p * r / (p + r), x + y, 2.0 * a);
  }

  lemma HarmonicCore(a: real, x: real, y: real, p: real, r: real)
    requires a > 0.0 && x > 0.0 && y > 0.0 && p > 0.0 && r > 0.0
    requires p * x == a && r * y == a
    ensures (2.0 * p * r / (p + r)) * (x + y) == 2.0 * a
  {
    var h := 2.0 * p * r / (p + r);
    assert h * (p + r) == 2.0 * p * r;
    assert h * (a * (x + y)) == 2.0 * a * a by {
      ScaledSum(p, r, x, y, a);
      ScaledProduct(p, r, x, y, a);
      CancelScale(h, p + r, 2.0 * p * r, x * y, a * (x + y), 2.0 * a * a);
    }
    CancelFactor(h * (x + y), 2.0 * a, a);
  }

  lemma Quotient(h: real, d: real, n: real)
    requires d != 0.0 && h * d == n
    ensures h == n / d
  {
  }

  lemma ScaledSum(p: real, r: real, x: real, y: real, a: real)
    requires p * x == a && r * y == a
    ensures (p + r) * (x * y) == a * (x + y)
  {
    calc {
      (p + r) * (x * y);
      (p * x) * y + (r * y) * x;
      a * y + a * x;
    }
  }

  lemma ScaledProduct(p: real, r: real, x: real, y: real, a: real)
    requires p * x == a && r * y == a
    ensures (2.0 * p * r) * (x * y) == 2.0 * a * a
  {
    calc {
      (2.0 * p * r) * (x * y);
      2.0 * (p * x) * (r * y);
    }
  }

  lemma CancelScale(h: real, u: real, v: real, k: real, uk: real, vk: real)
    requires h * u == v && u * k == uk && v * k == vk
    ensures h * uk == vk
  {
    calc {
      h * uk;
      h * (u * k);
      (h * u) * k;
    }
  }

  lemma CancelFactor(u: real, v: real, a: real)
    requires a != 0.0 && u * a == v * a
    ensures u == v
  {
  }

  /** A fraction of a positive whole lies in [0, 1]; it is 1 only for the
      whole and positive only for a positive part. */
  lemma FractionBounds(n: nat, d: nat)
    requires n <= d && d > 0
    ensures 0.0 <= n as real / d as real <= 1.0
    ensures n as real / d as real == 1.0 <==> n == d
    ensures n as real / d as real > 0.0 <==> n > 0
  {
    var q := n as real / d as real;
    assert q * d as real == n as real;
    if q < 0.0 {
      ScaleSign(-q, d as real);
    }
    if q > 0.0 {
      ScaleSign(q, d as real);
    }
    if q > 1.0 {
      ScaleSign(q - 1.0, d as real);
    }
    if q < 1.0 {
      ScaleSign(1.0 - q, d as real);
    }
  }

  lemma ScaleSign(x: real, y: real)
    requires x > 0.0 && y > 0.0
    ensures x * y > 0.0
  {
  }
}
