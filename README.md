# Membership-inference attack model: metrics, evaluation table and file naming

This project models `BaseMIAModel` from `src/mia/models/base.py`. That class is the base of the repository's
membership-inference attacks. An attack gives every candidate record a score. The base class then does four things:

- It turns the scores and the 0/1 membership labels into a metric record (`_compute_metrics`).
- It assembles one record per scoring method and writes them as an evaluation table tagged with a `method`
  column (`evaluate_attack`, `_save_eval_results`).
- It stores and reloads score vectors as `{key}_predictions.csv` files (`save_predictions`, `load_predictions`).
- Its constructor reads a nested configuration and places the results directory.

The modules, in dependency order:

- `outcomes.dfy` (`Outcomes`): `Option` and `Result`, the latter usable with `:-`.
- `dicts.dfy` (`Dicts`): Python dictionaries as insertion-ordered association lists.
  - `Set` is `d[k] = v`: it replaces the value in place when the key is present and appends the pair otherwise.
  - Its properties are lemmas (`SetNewKey`, `SetExistingKey`, `SetKeys`) that callers invoke where needed.
- `classification.dfy` (`Classification`): the standard binary-classification quantities used by the
  metric engine.
  - The 0/1 `Label` type and the rule "score > t".
  - The confusion counts, accuracy and F1.
  - F1 is 0 when its denominator is 0, the library's zero-division convention.
  - Precision and recall.
- `ordering.dfy` (`Ordering`): the numpy building blocks.
  - `np.sort`, `np.median`, and `np.sort(np.unique(...))`.
  - `np.argmax`, which returns the first maximum.
  - `(xs >= target).argmax()` over a boolean mask.
- `metrics.dfy` (`Metrics`): `_compute_metrics`.
  - The median rule and the best-F1 threshold sweep with its first-maximum tie-break.
  - Accuracy and F1 at both thresholds.
  - TPR at FPR 0.01 and 0.1.
  - The ranking library's outputs enter as an opaque `Ranking` value.
- `paths.dfy` (`Paths`): `os.path.join` with POSIX rules, and the predictions file name.
  - The key is recovered with `str.replace`.
- `settings.dfy` (`Settings`): what the constructor reads from the configuration, in source order, and the
  `{attack_model}_config` check.
- `mia_model.dfy` (`Models`): the class `BaseMiaModel`.
  - The results directory is its mutable field `files`: a map from file name to content.
  - The methods `EvaluateAttack` (through `EvaluateMethods`), `SaveEvalResults`, `SavePredictions` and
    `LoadPredictions` each loop as the source does.
  - Each method is proved against a specification function (`EvaluateAll`, `TagMethods`, `SavedFiles`) or a
    predicate (`LoadedFrom`).
- `scenarios.dfy` (`Scenarios`): concrete inputs.
  - The TPR lookup on the curve fpr [0, 0.05, 0.12, 1] and tpr [0, 0.4, 0.7, 1].
  - The tie-break on scores [0.1, 0.2, 0.2, 0.3] with labels [0, 1, 1, 0].
  - A median of 0.55 for scores [0.9, 0.8, 0.3, 0.1].
  - Perfect separation.

Some lemmas only support the proofs and model no line of the source:
- `Paths.Split` with `Paths.SplitAtSeparator` and `Paths.SplitIntercalate`: `Split` is the inverse used to state that joining keeps every component.
- `Metrics.LargestAtMost`: a fact about sequences of reals, used by `BestThresholdOptimal`.

## Model

| member | source | states |
|---|---|---|
| Dicts.Set | src/mia/models/base.py:80 | `d[k] = v`: a present key keeps its place and takes the new value; a new key is appended. `SetNewKey`, `SetExistingKey` and `SetKeys` state this. |
| Dicts.SetNewKey | src/mia/models/base.py:80 | Assigning a key that is not yet present appends the pair at the end. |
| Dicts.SetExistingKey | src/mia/models/base.py:119-121 | Assigning a present key keeps the length and the key order and replaces only that key's value. |
| Dicts.SetKeys | src/mia/models/base.py:119-121 | Assignment keeps the keys distinct, and the new keys are the old ones plus the assigned key. |
| Classification.PredictAbove | src/mia/models/base.py:130 | `y_scores > t`: one prediction per score, true iff the score exceeds the threshold. Used by `Metrics.F1At` and `Metrics.AccuracyAt`. |
| Classification.Count | src/mia/models/base.py:145-146 | A confusion cell never counts more records than there are. |
| Classification.ConfusionPartition | src/mia/models/base.py:145-146 | TP + FP + FN + TN is the number of records, and the matches are TP + TN. |
| Classification.PerfectPredictions | src/mia/models/base.py:145-146 | Predictions equal to the labels give no FP and no FN, and TP > 0 as soon as one member exists. |
| Classification.NoMembersNoTruePositives | src/mia/models/base.py:160-161 | Without members there is no true positive. |
| Classification.Accuracy | src/mia/models/base.py:145-146 | `accuracy_score`: the matching records over all records. `AccuracyInUnitInterval` bounds it and characterises the value 1. |
| Classification.F1 | src/mia/models/base.py:139-140 | `f1_score`: 2TP/(2TP+FP+FN), or 0 for a zero denominator. `F1InUnitInterval` bounds it, and `F1IsHarmonicMean` ties it to precision and recall. |
| Classification.AccuracyInUnitInterval | src/mia/models/base.py:145-146 | Accuracy lies in [0,1]. It is 1 exactly when there is no FP and no FN. |
| Classification.F1InUnitInterval | src/mia/models/base.py:160-161 | F1 lies in [0,1]. It is 1 exactly when TP > 0 and FP = FN = 0. It is 0 exactly when TP = 0. |
| Classification.Precision | src/mia/models/base.py:160-161 | Precision lies in [0,1] and is positive iff TP > 0. |
| Classification.Recall | src/mia/models/base.py:160-161 | Recall lies in [0,1] and is positive iff TP > 0. |
| Classification.F1IsHarmonicMean | src/mia/models/base.py:139-140 | When TP > 0, the 2TP/(2TP+FP+FN) form equals the harmonic mean 2pr/(p+r) of precision and recall. |
| Ordering.InsertSorted | src/mia/models/base.py:130 | Inserting into a sorted sequence keeps it sorted and adds exactly one element. |
| Ordering.Sort | src/mia/models/base.py:130 | The result is sorted, has the same length, and is a permutation of the scores (same multiset). |
| Ordering.SortCounts | src/mia/models/base.py:130 | Sorting changes neither the number of scores above a value nor the number below it. |
| Ordering.Median | src/mia/models/base.py:130 | `np.median`: the middle sorted score, or the mean of the two middle ones. `MedianSplitsInHalves` and `MedianWithinRange` state what it means. |
| Ordering.MedianSplitsInHalves | src/mia/models/base.py:130 | At most half of the scores lie strictly above the median, and at most half strictly below it. |
| Ordering.MedianWithinRange | src/mia/models/base.py:130 | Some score is at most the median and some score is at least the median. |
| Ordering.InsertDistinct | src/mia/models/base.py:135 | Inserting into a strictly increasing sequence keeps it strictly increasing and adds exactly the new value to its elements. |
| Ordering.Candidates | src/mia/models/base.py:135 | The candidate thresholds are strictly increasing. A value is a candidate iff it is an observed score. |
| Ordering.ArgMax | src/mia/models/base.py:141 | The index holds a maximum, and every earlier entry is strictly smaller, so it is the first maximum. |
| Ordering.FirstAtLeast | src/mia/models/base.py:157-158 | `(fpr >= target).argmax()`: always an index of the curve. `FirstAtLeastMeaning` characterises which one. |
| Ordering.FirstAtLeastMeaning | src/mia/models/base.py:157-158 | The mask's argmax is the first index with `fpr >= target`, or 0 when no index qualifies. |
| Metrics.F1At | src/mia/models/base.py:139-140 | F1 of the rule `score > t`. Its bounds come from `Classification.F1InUnitInterval`. |
| Metrics.AccuracyAt | src/mia/models/base.py:145-146 | Accuracy of the rule `score > t`. Its bounds come from `Classification.AccuracyInUnitInterval`. |
| Metrics.F1Sweep | src/mia/models/base.py:139-140 | The list `f1_scores`: one F1 per candidate threshold, in ascending order. `SweepMaximum` and `BestIsSweepMaximum` relate its argmax to all scores. |
| Metrics.BestThreshold | src/mia/models/base.py:135-141 | The best threshold is an observed score. Its F1 is at least that of every score. Every smaller score has strictly lower F1. |
| Metrics.SweepMaximum | src/mia/models/base.py:139-141 | The candidate picked by argmax over the F1 list maximises F1 over all scores, and no smaller score reaches it. |
| Metrics.BestThresholdUnique | src/mia/models/base.py:141 | These three properties determine the best threshold uniquely, because the first-maximum tie-break leaves no choice. |
| Metrics.BestThresholdOptimal | src/mia/models/base.py:139-142 | No threshold at or above the smallest score, observed or not, gives a higher F1 than the best threshold. |
| Metrics.NoMembersSelectsSmallestScore | src/mia/models/base.py:139-141 | Without members every F1 is 0, and the tie-break picks the smallest score. |
| Metrics.SeparableGivesPerfectBest | src/mia/models/base.py:139-146 | If some threshold separates members from non-members and both classes occur, the best threshold has F1 = 1 and accuracy = 1. |
| Metrics.TprAtFpr | src/mia/models/base.py:157-158 | An empty curve fails. Otherwise there is exactly one operating index (first `fpr >= target`, else 0). The result is `tpr` there, or an index error when `tpr` is shorter. |
| Metrics.OperatingIndexUnique | src/mia/models/base.py:157-158 | There is at most one operating index per target. |
| Metrics.ComputeMetrics | src/mia/models/base.py:126-165 | Empty scores fail, then mismatched lengths, then a ranking failure, in the source's order. Success needs both TPR lookups to succeed. |
| Metrics.ComputeMetricsThresholds | src/mia/models/base.py:130-161 | The four accuracy and F1 values are computed at the median and at the best threshold, and all lie in [0,1]. `f1_best` is an entry of the F1 sweep and at least every entry. |
| Metrics.ComputeMetricsOperatingPoints | src/mia/models/base.py:148-158 | The two TPRs are read at the operating indices of FPR 0.01 and 0.1. The curve and the ranking scores pass through unchanged. |
| Metrics.BestIsSweepMaximum | src/mia/models/base.py:139-142 | The F1 at the best threshold is the maximum of the per-candidate F1 list. |
| Scenarios.TprAtFprExample | src/mia/models/base.py:157-158 | fpr [0,0.05,0.12,1] with tpr [0,0.4,0.7,1] gives 0.4 at 0.01 and 0.7 at 0.1. |
| Scenarios.TprAtFprFallback | src/mia/models/base.py:157-158 | When no point reaches the target, the lookup falls back to index 0. |
| Scenarios.TieBreakExample | src/mia/models/base.py:135-141 | For scores [0.1,0.2,0.2,0.3] and labels [0,1,1,0] the best threshold is 0.1, with F1 0.8. |
| Scenarios.TieBreakLow | src/mia/models/base.py:135-140 | On the tie-break scores, threshold 0.1 gives F1 0.8. |
| Scenarios.TieBreakMiddle | src/mia/models/base.py:135-140 | On the tie-break scores, threshold 0.2 gives F1 0. |
| Scenarios.TieBreakHigh | src/mia/models/base.py:135-140 | On the tie-break scores, threshold 0.3 gives F1 0. |
| Scenarios.NoMembersExample | src/mia/models/base.py:139-141 | With all labels 0, the best threshold is the smallest score. |
| Scenarios.MedianExample | src/mia/models/base.py:130 | The median of [0.9,0.8,0.3,0.1] is 0.55. |
| Scenarios.PerfectSeparationBest | src/mia/models/base.py:135-146 | For scores [0.9,0.8,0.3,0.1] and labels [1,1,0,0], the best threshold gives F1 1 and accuracy 1. |
| Scenarios.PerfectSeparationAtMedian | src/mia/models/base.py:145-161 | On the same input, threshold 0.55 gives F1 1 and accuracy 1. |
| Scenarios.PerfectSeparationMedian | src/mia/models/base.py:130-161 | On the same input, the median rule gives F1 1 and accuracy 1. |
| Scenarios.PerfectSeparationExample | src/mia/models/base.py:130-161 | Perfectly separated scores give accuracy 1 and F1 1 at both thresholds whenever the call succeeds. |
| Paths.JoinTwo | src/mia/models/base.py:40-48 | One step of `posixpath.join`: an absolute component replaces the path; otherwise one separator is inserted when needed. |
| Paths.JoinPath | src/mia/models/base.py:40-48 | `os.path.join` of all components, left to right. `JoinedComponentsRecoverable` and `AbsoluteComponentResets` state its behaviour. |
| Paths.JoinPlainIsIntercalate | src/mia/models/base.py:40-48 | Joining plain components inserts exactly one separator between neighbours. |
| Paths.JoinedComponentsRecoverable | src/mia/models/base.py:40-48 | `os.path.join` of plain components keeps each of them, in order. |
| Paths.AbsoluteComponentResets | src/mia/models/base.py:40-48 | An absolute component discards every component before it. |
| Paths.RemoveAll | src/mia/models/base.py:119 | Deleting the suffix never lengthens a name. |
| Paths.RemoveAllWithoutOccurrence | src/mia/models/base.py:119 | `replace` changes nothing in a name without an occurrence. |
| Paths.RemoveAllSplits | src/mia/models/base.py:119 | When the pattern cannot overlap itself, no occurrence straddles a boundary before a later occurrence. |
| Paths.SuffixHasUniqueLastChar | src/mia/models/base.py:112 | The suffix `_predictions.csv` cannot overlap itself. |
| Paths.PredictionFileName | src/mia/models/base.py:112 | Every saved name ends with the suffix that loading filters on. |
| Paths.PredictionFileNameInjective | src/mia/models/base.py:110-112 | Distinct keys are written to distinct files. |
| Paths.KeyOfFileName | src/mia/models/base.py:119 | `filename.replace("_predictions.csv", "")`. `KeyOfSavedName` and `KeyRoundTrip` state when it gives the saved key back. |
| Paths.KeyOfSavedName | src/mia/models/base.py:112-119 | Loading a saved name yields the key with every inner occurrence of the suffix deleted. |
| Paths.KeyRoundTrip | src/mia/models/base.py:110-121 | A key survives saving and loading iff it does not contain `_predictions.csv`. |
| Paths.SuffixInKeyIsLost | src/mia/models/base.py:112-119 | A key `a_predictions.csv` comes back as `a`. |
| Settings.Entry | src/mia/models/base.py:28-33 | A top-level lookup succeeds iff the key is present. A missing key is a KeyError on that key. |
| Settings.Field | src/mia/models/base.py:28-35 | A nested lookup succeeds iff the value is a section that holds the key. |
| Settings.Texts | src/mia/models/base.py:40-48 | The join succeeds iff every component is text. Otherwise it fails at a non-text component. |
| Settings.PathParts | src/mia/models/base.py:40-48 | Seven components, with the attack model fourth and the experiment name last. |
| Settings.ReadFields | src/mia/models/base.py:27-48 | The reads succeed exactly on a well-formed configuration, which independently lists every entry and type the constructor needs. Each attribute is then the configured entry. |
| Settings.ConfigKey | src/mia/models/base.py:50 | The name `attack_model + "_config"` of the attack's own section. `Resolve` fails exactly when it is missing. |
| Settings.ResultsSaveDir | src/mia/models/base.py:40-48 | The seven components joined with `os.path.join`. `ResultsDirLayout` and `AbsoluteExperimentName` state the resulting path. |
| Settings.Resolve | src/mia/models/base.py:50-55 | Given the earlier reads, the constructor fails with ValueError iff `attack_model + "_config"` is not a key. Otherwise it keeps that section. |
| Settings.ResultsDirLayout | src/mia/models/base.py:40-48 | With plain components, the results directory is home / mia_files / dataset / attack / generator / experiment / MIA experiment, in that order. |
| Settings.AbsoluteExperimentName | src/mia/models/base.py:40-48 | An absolute MIA experiment name replaces the whole directory. |
| Settings.GeneratorSectionReused | src/mia/models/base.py:50-53 | An attack model named `generator` picks up `generator_config` as its own section. |
| Models.MetricFieldNamesDistinct | src/mia/models/base.py:84-92 | The nine metric columns are distinct and do not include `method`. |
| Models.MetricRow | src/mia/models/base.py:80-98 | The nine-column record of one method's metrics. `MetricRowColumns` states its columns and their order. |
| Models.MetricRowColumns | src/mia/models/base.py:80-98 | A record has exactly the nine metric columns, each once, in the source's order, and no `method` column. |
| Models.Normalize | src/mia/models/base.py:69-70 | The scores become a dictionary with distinct keys. |
| Models.MethodRecord | src/mia/models/base.py:75-98 | One method's record, or the error `_compute_metrics` raises for it. |
| Models.MethodResults | src/mia/models/base.py:72-76 | One result per method. |
| Models.MethodResultsKeys | src/mia/models/base.py:72-76 | The results carry the method names in the dictionary's order, each with that method's record or error, so their keys stay distinct. |
| Models.Assemble | src/mia/models/base.py:72-98 | The loop over the method results: the first error, or the dictionary of records. `AssembleSucceedsIff`, `AssembleFailsAtFirst` and `AssembleRecords` state its outcome. |
| Models.EvaluateAll | src/mia/models/base.py:72-98 | `eval_results` for the normalised scores. `EvaluatedRecords` states a successful table, and `EvaluateMethods` computes it with the source's loop. |
| Models.AssembleSucceedsIff | src/mia/models/base.py:72-98 | The evaluation succeeds iff every method's metrics succeed. |
| Models.AssembleFailsAtFirst | src/mia/models/base.py:72-76 | The error of the first failing method is the error of the whole evaluation, whatever the later methods would give. |
| Models.AssembleRecords | src/mia/models/base.py:72-98 | With distinct method names, a successful evaluation holds one record per method, in the methods' order, each that method's record. |
| Models.AssembleStep | src/mia/models/base.py:72-98 | One loop turn appends the method's record. |
| Models.Tag | src/mia/models/base.py:186 | `metrics["method"] = method` on one record. `TagAddsMethodField` and `TaggedMetricRow` state its effect. |
| Models.TagMethods | src/mia/models/base.py:184-187 | One tagged record per entry, in order. |
| Models.TaggedMetricRow | src/mia/models/base.py:185-187 | Tagging a metric record appends `method` after the nine metric columns. |
| Models.TagAddsMethodField | src/mia/models/base.py:185-187 | Tagging adds exactly the field `method` holding the key, at the end. An existing `method` is overwritten in place. The other fields are unchanged. |
| Models.EvaluatedRecords | src/mia/models/base.py:72-98 | A successful evaluation holds one record per method, in order, each the nine-column row of that method's metrics. |
| Models.BareVectorSingleRecord | src/mia/models/base.py:69-98 | A bare vector yields the single record keyed by the attack model, or its error. |
| Models.SavedReportLayout | src/mia/models/base.py:80-98 | The written table has one row per method, in order, with the nine metric columns followed by `method`. |
| Models.SavedFiles | src/mia/models/base.py:107-112 | The directory after each key's scores are written to its file in turn. `SavedFilesDomain`, `SavedFilesKeepOthers` and `SavedFileContent` state its contents. |
| Models.SavedFilesDomain | src/mia/models/base.py:107-112 | Saving adds exactly the keys' files to the directory. |
| Models.SavedFilesKeepOthers | src/mia/models/base.py:107-112 | Every other file is left as it was. |
| Models.SavedFileContent | src/mia/models/base.py:107-112 | With distinct keys, each key's file holds its scores under the label column. |
| Models.SavedFilesStep | src/mia/models/base.py:107-112 | The files saved after one more key are the earlier ones plus that key's file. |
| Models.LoadStep | src/mia/models/base.py:117-121 | Reading one more listed file keeps the load specification for the files read so far. |
| Models.SaveThenLoad | src/mia/models/base.py:107-121 | Conditions: the keys are distinct, none contains the suffix, and the directory held no other predictions file. Then loading after saving yields every saved key with its scores, and nothing else. |
| Models.EvaluateMethods | src/mia/models/base.py:68-98 | The loop computes `EvaluateAll`: the first failing method's error, or else one record per method in order. |
| Models.BaseMiaModel.constructor | src/mia/models/base.py:27-48 | Every attribute holds the resolved configuration value. The directory holds what it held before. |
| Models.BaseMiaModel.Create | src/mia/models/base.py:20-55 | It fails exactly when `Settings.Resolve` fails, with the same error. Otherwise it yields a new model with the resolved directory and attack section. |
| Models.BaseMiaModel.EvaluateAttack | src/mia/models/base.py:63-103 | On a metric error it returns that error and writes nothing. Otherwise it writes the tagged table `TagMethods(EvaluateAll(...))` under `file_name`, changing no other file. |
| Models.BaseMiaModel.SaveEvalResults | src/mia/models/base.py:181-191 | It writes the tagged records as the table `file_name` and changes no other file. |
| Models.BaseMiaModel.SavePredictions | src/mia/models/base.py:107-112 | The directory becomes `SavedFiles(old, scores, label column)`. |
| Models.BaseMiaModel.LoadPredictions | src/mia/models/base.py:115-122 | The result satisfies `LoadedFrom(files, result)`. Every file ending with the suffix contributes its key, and every entry comes from such a file with its content. |

## Left out

- The ranking library (`roc_auc_score`, `average_precision_score`, `precision_recall_curve`, `auc`, `roc_curve`) is a foreign call.
  - Its outputs are an opaque `Ranking`, or `None` when it raises.
  - `evaluate_attack` receives it as a function of scores and labels.
- `accuracy_score` and `f1_score` are modelled by their textbook definitions, not by the library code. The library's checks on label values are not modelled; the `Label` type admits only 0 and 1.
- `sample_weight` is not modelled. Only the unweighted case is covered.
- IEEE floating point is not modelled. Scores and metrics are exact reals, and numpy's `nan` from the median of an empty vector is not represented; that call raises right after at `np.argmax`.
- I/O side effects are not modelled:
  - the `np.save` debug writes (base.py:131-132);
  - `print` (base.py:192);
  - `check_folder`/`os.makedirs` (base.py:14-16, 49);
  - ROC plotting (`_plot_roc_curve`, base.py:101, 169-177), including plots already saved when a later method raises.
- CSV encoding and decoding are not modelled. A file holds structured content (`FileContent`).
- Models.BaseMiaModel.LoadPredictions: it returns a file's content, not the `n x 1` array that `to_numpy()` produces.
- Models.BaseMiaModel.LoadPredictions: the order of `os.listdir` is left unspecified. Among files that yield the same key, the one listed last wins.
- Models.BaseMiaModel.EvaluateAttack: `files` is keyed by the name passed to `os.path.join`.
  - A file name or key containing `/`, or an absolute one, would be written outside the directory or fail; this is not modelled.
- Models.BaseMiaModel.SaveEvalResults: the source mutates the dictionaries held by `eval_results` in place (base.py:186).
  - The model builds the tagged records as new values.
  - No caller reads `eval_results` afterwards.
- Settings.Texts: every non-text path component counts as a `TypeError`. Bytes and path-like components are not modelled.
- The abstract `run_attack` (base.py:58-60) has no body, so there is nothing to model.
- `src/mia/utils/prepare_data.py` is not part of this model. It is file reading and reshaping with no algorithmic content.
- An evaluation with no methods writes a table with neither rows nor columns, because pandas takes the columns from the records (base.py:189-191). The model follows the code, so no header is written for the empty table.
