/** `BaseMIAModel`: the attack model's configuration, the results
    directory it writes to, and the orchestration around the metric engine —
    one evaluation record per scoring method, the `method` tag added when the
    records are saved, and the predictions files named after their keys. */
module Models {
  import opened Outcomes
  import opened Dicts
  import opened Classification
  import opened Metrics
  import opened Paths
  import opened Settings

  /** A cell of the evaluation table. */
  datatype Cell = Num(x: real) | Name(name: string)

  /** One row of the evaluation table, as a dictionary from column name. */
  type Row = Dict<string, Cell>

  /** What a file of the results directory holds. */
  datatype FileContent =
    | PredictionTable(column: ConfigValue, values: seq<real>)  // one column headed by the label column's name
    | ResultTable(rows: seq<Row>)                              // the evaluation table

  /** The `scores` argument of `evaluate_attack`: a bare score vector or a
      dictionary of score vectors by method name. */
  datatype Scores = Vector(values: seq<real>) | ByMethod(entries: Dict<string, seq<real>>)

  /** The ranking library as seen by one call of `_compute_metrics`. */
  type Ranker = (seq<real>, seq<Label>) -> Option<Ranking>

  const MetricFieldNames: seq<string> := [
    "accuracy_median", "accuracy_best", "aucroc", "average_precision", "pr_auc",
    "f1_median", "f1_best", "tpr_at_fpr_001", "tpr_at_fpr_01"]

  const MethodField: string := "method"

  lemma MetricFieldNamesDistinct()
    ensures forall i, j :: 0 <= i < j < |MetricFieldNames| ==> MetricFieldNames[i] != MetricFieldNames[j]
    ensures MethodField !in MetricFieldNames
  {
    var names := MetricFieldNames;
    assert names[7][12] != names[8][12];
  }

  /** The evaluation record of one method. */
  function MetricRow(m: MetricRecord): Row {
    [ ("accuracy_median", Num(m.accuracyMedian)),
      ("accuracy_best", Num(m.accuracyBest)),
      ("aucroc", Num(m.aucroc)),
      ("average_precision", Num(m.averagePrecision)),
      ("pr_auc", Num(m.prAuc)),
      ("f1_median", Num(m.f1Median)),
      ("f1_best", Num(m.f1Best)),
      ("tpr_at_fpr_001", Num(m.tprAtFpr001)),
      ("tpr_at_fpr_01", Num(m.tprAtFpr01)) ]
  }

  /** A record holds the nine metric columns, each once, in the order the
      metrics dictionary is built. */
  lemma MetricRowColumns(m: MetricRecord)
    ensures Keys(MetricRow(m)) == MetricFieldNames && DistinctKeys(MetricRow(m))
    ensures MethodField !in Keys(MetricRow(m))
  {
    MetricFieldNamesDistinct();
  }

  /** A bare vector becomes a one-entry dictionary keyed by the attack
      model's name. */
  function Normalize(scores: Scores, attackModel: string): (entries: Dict<string, seq<real>>)
    requires scores.ByMethod? ==> DistinctKeys(scores.entries)
    ensures DistinctKeys(entries)
  {
    match scores
    case Vector(values) => [(attackModel, values)]
    case ByMethod(entries) => entries
  }

  /** The record `evaluate_attack` files under one method: the nine metrics
      `_compute_metrics` gives for its scores, or the error it raises. */
  function MethodRecord(entry: (string, seq<real>), labels: seq<Label>, rank: Ranker): Result<Row, MetricsError> {
    var m :- ComputeMetrics(entry.1, labels, rank(entry.1, labels));
    Success(MetricRow(m))
  }

  /** Each method's name with its record or error. */
  function MethodResults(entries: Dict<string, seq<real>>, labels: seq<Label>, rank: Ranker): (results: Dict<string, Result<Row, MetricsError>>)
    ensures |results| == |entries|
  {
    seq(|entries|, i requires 0 <= i < |entries| => (entries[i].0, MethodRecord(entries[i], labels, rank)))
  }

  /** The `i`-th method's name with its record or error. */
  lemma MethodResultsAt(entries: Dict<string, seq<real>>, labels: seq<Label>, rank: Ranker, i: nat)
    requires i < |entries|
    ensures MethodResults(entries, labels, rank)[i] == (entries[i].0, MethodRecord(entries[i], labels, rank))
  {
  }

  /** The results are keyed like the scores. */
  lemma MethodResultsKeys(entries: Dict<string, seq<real>>, labels: seq<Label>, rank: Ranker)
    requires DistinctKeys(entries)
    ensures DistinctKeys(MethodResults(entries, labels, rank))
    ensures forall i :: 0 <= i < |entries| ==>
      MethodResults(entries, labels, rank)[i] == (entries[i].0, MethodRecord(entries[i], labels, rank))
  {
    forall i | 0 <= i < |entries|
      ensures MethodResults(entries, labels, rank)[i] == (entries[i].0, MethodRecord(entries[i], labels, rank))
    {
      MethodResultsAt(entries, labels, rank, i);
    }
  }

  /** Every method before the `i`-th produced its record. */
  ghost predicate NoFailureBefore<V>(results: Dict<string, Result<V, MetricsError>>, i: int) {
    forall j :: 0 <= j < i && j < |results| ==> results[j].1.Success?
  }

  lemma NoFailureExtends<V>(results: Dict<string, Result<V, MetricsError>>, i: nat)
    requires NoFailureBefore(results, i) && i < |results| && results[i].1.Success?
    ensures NoFailureBefore(results, i + 1)
  {
  }

  /** The dictionary `eval_results` filled in order, each method's record
      assigned under its name; the first method whose metrics raise aborts
      the whole evaluation with its error. */
  function Assemble<V>(results: Dict<string, Result<V, MetricsError>>): Result<Dict<string, V>, MetricsError>
    decreases |results|
  {
    if results == [] then Success([])
    else
      var n := |results|;
      var previous :- Assemble(results[..n - 1]);
      var v :- results[n - 1].1;
      Success(Set(previous, results[n - 1].0, v))
  }

  /** The evaluation succeeds exactly when every method's metrics do. */
  lemma {:induction false} AssembleSucceedsIff<V>(results: Dict<string, Result<V, MetricsError>>)
    ensures Assemble(results).Success? <==> forall i :: 0 <= i < |results| ==> results[i].1.Success?
    decreases |results|
  {
    if results != [] {
      var n := |results|;
      var init := results[..n - 1];
      assert forall i :: 0 <= i < n - 1 ==> init[i] == results[i];
      AssembleSucceedsIff(init);
    }
  }

  /** The error of the first failing method is the error of the whole
      evaluation, whatever the methods after it would give. */
  lemma {:induction false} AssembleFailsAtFirst<V>(results: Dict<string, Result<V, MetricsError>>, i: nat)
    requires i < |results| && results[i].1.Failure? && NoFailureBefore(results, i)
    ensures Assemble(results) == Failure(results[i].1.error)
    decreases |results|
  {
    var n := |results|;
    var init := results[..n - 1];
    if i < n - 1 {
      assert forall j :: 0 <= j < n - 1 ==> init[j] == results[j];
      AssembleFailsAtFirst(init, i);
    } else {
      assert forall j :: 0 <= j < n - 1 ==> init[j] == results[j];
      AssembleSucceedsIff(init);
    }
  }

  /** With distinct method names, a successful evaluation holds one record
      per method, in the methods' order. */
  lemma {:induction false} AssembleRecords<V>(results: Dict<string, Result<V, MetricsError>>)
    requires DistinctKeys(results)
    requires forall i :: 0 <= i < |results| ==> results[i].1.Success?
    ensures Assemble(results).Success?
    ensures |Assemble(results).value| == |results|
    ensures forall i :: 0 <= i < |results| ==> Assemble(results).value[i] == (results[i].0, results[i].1.value)
    decreases |results|
  {
    if results != [] {
      var n := |results|;
      var init := results[..n - 1];
      assert forall i :: 0 <= i < n - 1 ==> init[i] == results[i];
      AssembleRecords(init);
      var previous := Assemble(init).value;
      assert results[n - 1].0 !in Keys(previous) by {
        forall j | 0 <= j < |previous| ensures Keys(previous)[j] != results[n - 1].0 {
          assert previous[j].0 == results[j].0;
        }
      }
      SetNewKey(previous, results[n - 1].0, results[n - 1].1.value);
    }
  }

  /** One turn of the loop filling `eval_results`. */
  lemma AssembleStep<V>(results: Dict<string, Result<V, MetricsError>>, i: nat, d: Dict<string, V>)
    requires i < |results| && results[i].1.Success?
    requires Assemble(results[..i]) == Success(d)
    ensures Assemble(results[..i + 1]) == Success(Set(d, results[i].0, results[i].1.value))
  {
    assert results[..i + 1][..i] == results[..i];
  }

  /** `eval_results` for the normalised scores. */
  function EvaluateAll(entries: Dict<string, seq<real>>, labels: seq<Label>, rank: Ranker): Result<Dict<string, Row>, MetricsError> {
    Assemble(MethodResults(entries, labels, rank))
  }

  /** `metrics["method"] = method` on one entry of `eval_results`. */
  function Tag(entry: (string, Row)): Row {
    Set(entry.1, MethodField, Name(entry.0))
  }

  /** `results_list`: the records in order, each tagged with its method. */
  function TagMethods(d: Dict<string, Row>): (rows: seq<Row>)
    ensures |rows| == |d|
    ensures forall i :: 0 <= i < |d| ==> rows[i] == Tag(d[i])
    decreases |d|
  {
    if d == [] then []
    else
      var init := d[..|d| - 1];
      assert forall i :: 0 <= i < |init| ==> init[i] == d[i];
      TagMethods(init) + [Tag(d[|d| - 1])]
  }

  /** Saving adds exactly one field, `method`, holding the record's key: it
      is appended when the record lacks it and overwritten in place
      otherwise; the other fields and the order of the records are kept. */
  lemma TagAddsMethodField(d: Dict<string, Row>, i: nat)
    requires i < |d| && DistinctKeys(d[i].1)
    ensures var tagged, row := TagMethods(d)[i], d[i].1;
      && DistinctKeys(tagged)
      && (MethodField !in Keys(row) ==> tagged == row + [(MethodField, Name(d[i].0))])
      && (MethodField in Keys(row) ==>
            Keys(tagged) == Keys(row) &&
            forall j :: 0 <= j < |row| ==> tagged[j] == (if row[j].0 == MethodField then (MethodField, Name(d[i].0)) else row[j]))
  {
    var row := d[i].1;
    SetKeys(row, MethodField, Name(d[i].0));
    if MethodField in Keys(row) {
      SetExistingKey(row, MethodField, Name(d[i].0));
    } else {
      SetNewKey(row, MethodField, Name(d[i].0));
    }
  }

  /** The records of a successful evaluation, one per method in order, each
      the metrics row of that method's scores. */
  lemma EvaluatedRecords(entries: Dict<string, seq<real>>, labels: seq<Label>, rank: Ranker)
    requires DistinctKeys(entries) && EvaluateAll(entries, labels, rank).Success?
    ensures var table := EvaluateAll(entries, labels, rank).value;
      && |table| == |entries|
      && forall i :: 0 <= i < |entries| ==>
           && ComputeMetrics(entries[i].1, labels, rank(entries[i].1, labels)).Success?
           && table[i] == (entries[i].0, MetricRow(ComputeMetrics(entries[i].1, labels, rank(entries[i].1, labels)).value))
  {
    var results := MethodResults(entries, labels, rank);
    MethodResultsKeys(entries, labels, rank);
    AssembleSucceedsIff(results);
    AssembleRecords(results);
  }

  /** A bare score vector is evaluated as the single method named after the
      attack model. */
  lemma BareVectorSingleRecord(values: seq<real>, attackModel: string, labels: seq<Label>, rank: Ranker)
    ensures var table := EvaluateAll(Normalize(Vector(values), attackModel), labels, rank);
      && (table.Success? <==> ComputeMetrics(values, labels, rank(values, labels)).Success?)
      && (table.Success? ==>
            table.value == [(attackModel, MetricRow(ComputeMetrics(values, labels, rank(values, labels)).value))])
      && (table.Failure? ==> table.error == ComputeMetrics(values, labels, rank(values, labels)).error)
  {
    var results := MethodResults([(attackModel, values)], labels, rank);
    MethodResultsAt([(attackModel, values)], labels, rank, 0);
    AssembleSucceedsIff(results);
    if results[0].1.Success? {
      AssembleRecords(results);
    } else {
      AssembleFailsAtFirst(results, 0);
    }
  }

  /** Tagging a fresh record appends `method` after the nine metric
      columns. */
  lemma TaggedMetricRow(m: MetricRecord, name: string)
    ensures Tag((name, MetricRow(m))) == MetricRow(m) + [(MethodField, Name(name))]
    ensures Keys(Tag((name, MetricRow(m)))) == MetricFieldNames + [MethodField]
  {
    MetricRowColumns(m);
    SetNewKey(MetricRow(m), MethodField, Name(name));
    assert Keys(MetricRow(m) + [(MethodField, Name(name))]) == Keys(MetricRow(m)) + [MethodField];
  }

  /** The evaluation table that is written: one row per method, in order,
      holding the nine metric columns followed by `method`. */
  lemma SavedReportLayout(entries: Dict<string, seq<real>>, labels: seq<Label>, rank: Ranker)
    requires DistinctKeys(entries) && EvaluateAll(entries, labels, rank).Success?
    ensures var rows := TagMethods(EvaluateAll(entries, labels, rank).value);
      && |rows| == |entries|
      && forall i :: 0 <= i < |entries| ==>
           && ComputeMetrics(entries[i].1, labels, rank(entries[i].1, labels)).Success?
           && rows[i] == MetricRow(ComputeMetrics(entries[i].1, labels, rank(entries[i].1, labels)).value) + [(MethodField, Name(entries[i].0))]
           && Keys(rows[i]) == MetricFieldNames + [MethodField]
  {
    var table := EvaluateAll(entries, labels, rank).value;
    EvaluatedRecords(entries, labels, rank);
    forall i | 0 <= i < |entries|
      ensures TagMethods(table)[i] == table[i].1 + [(MethodField, Name(entries[i].0))]
      ensures Keys(TagMethods(table)[i]) == MetricFieldNames + [MethodField]
    {
      TaggedMetricRow(ComputeMetrics(entries[i].1, labels, rank(entries[i].1, labels)).value, entries[i].0);
    }
  }

  /** `name` is the predictions file of one of the keys of `scores`. */
  ghost predicate IsSavedName(scores: Dict<string, seq<real>>, name: string) {
    exists i :: 0 <= i < |scores| && name == PredictionFileName(scores[i].0)
  }

  /** The results directory after `save_predictions`: each key's scores
      written in turn to the key's file, under the label column's name. */
  function SavedFiles(files: map<string, FileContent>, scores: Dict<string, seq<real>>, column: ConfigValue): map<string, FileContent>
    decreases |scores|
  {
    if scores == [] then files
    else
      var n := |scores|;
      SavedFiles(files, scores[..n - 1], column)[PredictionFileName(scores[n - 1].0) := PredictionTable(column, scores[n - 1].1)]
  }

  /** Saving adds exactly the keys' files to the directory. */
  lemma {:induction false} SavedFilesDomain(files: map<string, FileContent>, scores: Dict<string, seq<real>>, column: ConfigValue)
    ensures forall name :: name in SavedFiles(files, scores, column) <==> name in files || IsSavedName(scores, name)
    decreases |scores|
  {
    var n := |scores|;
    if n > 0 {
      SavedFilesDomain(files, scores[..n - 1], column);
      SavedFilesStep(scores, n - 1);
      assert scores[..n] == scores;
    }
  }

  /** Saving leaves every file that is not one of the keys' files as it
      was. */
  lemma {:induction false} SavedFilesKeepOthers(files: map<string, FileContent>, scores: Dict<string, seq<real>>,
                                               column: ConfigValue, name: string)
    requires name in files && !IsSavedName(scores, name)
    ensures name in SavedFiles(files, scores, column) && SavedFiles(files, scores, column)[name] == files[name]
    decreases |scores|
  {
    var n := |scores|;
    if n > 0 {
      SavedFilesStep(scores, n - 1);
      assert scores[..n] == scores;
      SavedFilesKeepOthers(files, scores[..n - 1], column, name);
    }
  }

  /** With distinct keys, each key's file holds that key's scores. */
  lemma {:induction false} SavedFileContent(files: map<string, FileContent>, scores: Dict<string, seq<real>>,
                                           column: ConfigValue, i: nat)
    requires DistinctKeys(scores) && i < |scores|
    ensures PredictionFileName(scores[i].0) in SavedFiles(files, scores, column)
    ensures SavedFiles(files, scores, column)[PredictionFileName(scores[i].0)] == PredictionTable(column, scores[i].1)
    decreases |scores|
  {
    var n := |scores|;
    if i < n - 1 {
      var init := scores[..n - 1];
      assert init[i] == scores[i];
      PredictionFileNameInjective(scores[i].0, scores[n - 1].0);
      SavedFileContent(files, init, column, i);
    }
    SavedFilesDomain(files, scores, column);
  }

  /** The names saved by a prefix, and the fact that under distinct keys the
      last key's file is not one of them. */
  lemma SavedFilesStep(scores: Dict<string, seq<real>>, k: nat)
    requires k < |scores|
    ensures forall name :: IsSavedName(scores[..k + 1], name) <==>
      IsSavedName(scores[..k], name) || name == PredictionFileName(scores[k].0)
    ensures DistinctKeys(scores) ==> !IsSavedName(scores[..k], PredictionFileName(scores[k].0))
  {
    var init := scores[..k];
    forall name ensures IsSavedName(scores[..k + 1], name) <==> IsSavedName(init, name) || name == PredictionFileName(scores[k].0) {
      if IsSavedName(scores[..k + 1], name) {
        var i :| 0 <= i < k + 1 && name == PredictionFileName(scores[..k + 1][i].0);
        if i < k {
          assert init[i] == scores[i];
        }
      }
      if IsSavedName(init, name) {
        var i :| 0 <= i < k && name == PredictionFileName(init[i].0);
        assert scores[..k + 1][i] == init[i];
      }
      if name == PredictionFileName(scores[k].0) {
        assert scores[..k + 1][k] == scores[k];
      }
    }
    forall i | 0 <= i < k ensures PredictionFileName(scores[k].0) == PredictionFileName(init[i].0) ==> scores[i].0 == scores[k].0 {
      PredictionFileNameInjective(scores[k].0, init[i].0);
    }
  }

  /** `key` is recovered from some file of the directory named with the
      predictions suffix, and `v` is that file's content. */
  ghost predicate LoadableAs(files: map<string, FileContent>, key: string, v: FileContent) {
    exists name :: name in files && EndsWith(name, PredictionSuffix) && KeyOfFileName(name) == key && files[name] == v
  }

  /** What `load_predictions` may return for a directory: every file whose
      name ends with the suffix contributes its key, and each loaded entry
      comes from such a file. When two files yield the same key, the one
      listed last wins, and the listing order is not specified. */
  ghost predicate LoadedFrom(files: map<string, FileContent>, predictions: Dict<string, FileContent>) {
    && DistinctKeys(predictions)
    && (forall name :: name in files && EndsWith(name, PredictionSuffix) ==> KeyOfFileName(name) in Keys(predictions))
    && (forall i :: 0 <= i < |predictions| ==> LoadableAs(files, predictions[i].0, predictions[i].1))
  }

  /** Listing one more file keeps every loaded entry loadable. */
  lemma LoadableGrows(visited: map<string, FileContent>, predictions: Dict<string, FileContent>, name: string, v: FileContent)
    requires name !in visited
    requires forall i :: 0 <= i < |predictions| ==> LoadableAs(visited, predictions[i].0, predictions[i].1)
    ensures forall i :: 0 <= i < |predictions| ==> LoadableAs(visited[name := v], predictions[i].0, predictions[i].1)
  {
    forall i | 0 <= i < |predictions| ensures LoadableAs(visited[name := v], predictions[i].0, predictions[i].1) {
      assert LoadableAs(visited, predictions[i].0, predictions[i].1);
      var source :| source in visited && EndsWith(source, PredictionSuffix) && KeyOfFileName(source) == predictions[i].0
                    && visited[source] == predictions[i].1;
      assert visited[name := v][source] == predictions[i].1;
    }
  }

  /** One step of the listing loop: reading file `name` keeps `LoadedFrom`
      for the files read so far. */
  lemma LoadStep(visited: map<string, FileContent>, predictions: Dict<string, FileContent>, name: string, v: FileContent)
    requires LoadedFrom(visited, predictions) && name !in visited
    ensures EndsWith(name, PredictionSuffix) ==>
      LoadedFrom(visited[name := v], Set(predictions, KeyOfFileName(name), v))
    ensures !EndsWith(name, PredictionSuffix) ==> LoadedFrom(visited[name := v], predictions)
  {
    var next := visited[name := v];
    if EndsWith(name, PredictionSuffix) {
      var key := KeyOfFileName(name);
      var r := Set(predictions, key, v);
      SetKeys(predictions, key, v);
      assert LoadableAs(next, key, v) by {
        assert next[name] == v;
      }
      if key in Keys(predictions) {
        SetExistingKey(predictions, key, v);
        LoadableGrows(visited, predictions, name, v);
        forall i | 0 <= i < |r| ensures LoadableAs(next, r[i].0, r[i].1) {
        }
      } else {
        SetNewKey(predictions, key, v);
        LoadableGrows(visited, predictions, name, v);
        forall i | 0 <= i < |r| ensures LoadableAs(next, r[i].0, r[i].1) {
          if i < |predictions| {
            assert r[i] == predictions[i];
          }
        }
      }
    } else {
      LoadableGrows(visited, predictions, name, v);
    }
  }

  /** `entry` is one of the saved keys with the table of its scores. */
  ghost predicate IsSavedEntry(scores: Dict<string, seq<real>>, column: ConfigValue, entry: (string, FileContent)) {
    exists j :: 0 <= j < |scores| && entry == (scores[j].0, PredictionTable(column, scores[j].1))
  }

  /** Saving predictions and loading them back gives every saved key with
      its scores, and nothing else, provided the directory held no other
      predictions file and no key contains the suffix itself. */
  lemma SaveThenLoad(before: map<string, FileContent>, scores: Dict<string, seq<real>>, column: ConfigValue,
                     predictions: Dict<string, FileContent>)
    requires DistinctKeys(scores)
    requires forall i :: 0 <= i < |scores| ==> !Contains(scores[i].0, PredictionSuffix)
    requires forall name :: name in before ==> !EndsWith(name, PredictionSuffix)
    requires LoadedFrom(SavedFiles(before, scores, column), predictions)
    ensures forall j :: 0 <= j < |scores| ==> scores[j].0 in Keys(predictions)
    ensures forall i :: 0 <= i < |predictions| ==> IsSavedEntry(scores, column, predictions[i])
  {
    var files := SavedFiles(before, scores, column);
    SavedFilesDomain(before, scores, column);
    forall j | 0 <= j < |scores| ensures scores[j].0 in Keys(predictions) {
      KeyRoundTrip(scores[j].0);
      SavedFileContent(before, scores, column, j);
    }
    forall i | 0 <= i < |predictions| ensures IsSavedEntry(scores, column, predictions[i]) {
      assert LoadableAs(files, predictions[i].0, predictions[i].1);
      var name :| name in files && EndsWith(name, PredictionSuffix) && KeyOfFileName(name) == predictions[i].0 && files[name] == predictions[i].1;
      var j :| 0 <= j < |scores| && name == PredictionFileName(scores[j].0);
      KeyRoundTrip(scores[j].0);
      SavedFileContent(before, scores, column, j);
      assert predictions[i] == (scores[j].0, PredictionTable(column, scores[j].1));
    }
  }

  /** The loop of `evaluate_attack` filling `eval_results` method by method,
      in the dictionary's order; the first method whose metrics raise ends
      it with that error. */
  method EvaluateMethods(entries: Dict<string, seq<real>>, labels: seq<Label>, rank: Ranker)
    returns (r: Result<Dict<string, Row>, MetricsError>)
    ensures r == EvaluateAll(entries, labels, rank)
  {
    ghost var results := MethodResults(entries, labels, rank);
    var evalResults: Dict<string, Row> := [];
    for i := 0 to |entries|
      invariant NoFailureBefore(results, i)
      invariant Assemble(results[..i]) == Success(evalResults)
    {
      var metrics := MethodRecord(entries[i], labels, rank);
      MethodResultsAt(entries, labels, rank, i);
      if metrics.Failure? {
        AssembleFailsAtFirst(results, i);
        return Failure(metrics.error);
      }
      NoFailureExtends(results, i);
      AssembleStep(results, i, evalResults);
      evalResults := Set(evalResults, entries[i].0, metrics.value);
    }
    assert results[..|entries|] == results;
    return Success(evalResults);
  }

  class BaseMiaModel {
    const config: Config
    const homeDir: string
    const generatorModel: string
    const experimentName: string
    const attackModel: string
    const datasetConfig: ConfigValue
    const datasetName: string
    const membershipLabelCol: ConfigValue
    const syntheticFile: string
    const referenceFile: Option<string>
    const membershipTestFile: string
    const membershipLblFile: string
    const resultsSaveDir: string
    const miaConfig: ConfigValue

    /** The files of `results_save_dir`, by name. */
    var files: map<string, FileContent>

    constructor (config: Config, resolved: Resolved, syntheticFile: string, membershipTestFile: string,
                 membershipLblFile: string, referenceFile: Option<string>, existing: map<string, FileContent>)
      ensures this.config == config
      ensures homeDir == resolved.fields.homeDir && generatorModel == resolved.fields.generatorModel
      ensures experimentName == resolved.fields.experimentName && attackModel == resolved.fields.attackModel
      ensures datasetConfig == resolved.fields.datasetConfig && datasetName == resolved.fields.datasetName
      ensures membershipLabelCol == resolved.fields.membershipLabelCol
      ensures this.syntheticFile == syntheticFile && this.referenceFile == referenceFile
      ensures this.membershipTestFile == membershipTestFile && this.membershipLblFile == membershipLblFile
      ensures resultsSaveDir == ResultsSaveDir(resolved.fields) && miaConfig == resolved.miaConfig
      ensures files == existing
    {
      this.config := config;
      homeDir := resolved.fields.homeDir;
      generatorModel := resolved.fields.generatorModel;
      experimentName := resolved.fields.experimentName;
      attackModel := resolved.fields.attackModel;
      datasetConfig := resolved.fields.datasetConfig;
      datasetName := resolved.fields.datasetName;
      membershipLabelCol := resolved.fields.membershipLabelCol;
      this.syntheticFile := syntheticFile;
      this.referenceFile := referenceFile;
      this.membershipTestFile := membershipTestFile;
      this.membershipLblFile := membershipLblFile;
      resultsSaveDir := ResultsSaveDir(resolved.fields);
      miaConfig := resolved.miaConfig;
      files := existing;
    }

    /** `BaseMIAModel(config, ...)`: reads the configuration and either
        raises or yields a model whose results directory holds `existing`. */
    static method Create(config: Config, syntheticFile: string, membershipTestFile: string, membershipLblFile: string,
                         miaExperimentName: string, referenceFile: Option<string>, existing: map<string, FileContent>)
      returns (r: Result<BaseMiaModel, InitError>)
      ensures r.Failure? <==> Resolve(config, miaExperimentName).Failure?
      ensures r.Failure? ==> r.error == Resolve(config, miaExperimentName).error
      ensures r.Success? ==>
        var resolved := Resolve(config, miaExperimentName).value;
        && fresh(r.value)
        && r.value.config == config
        && r.value.homeDir == resolved.fields.homeDir
        && r.value.generatorModel == resolved.fields.generatorModel
        && r.value.experimentName == resolved.fields.experimentName
        && r.value.attackModel == resolved.fields.attackModel
        && r.value.datasetConfig == resolved.fields.datasetConfig
        && r.value.datasetName == resolved.fields.datasetName
        && r.value.membershipLabelCol == resolved.fields.membershipLabelCol
        && r.value.syntheticFile == syntheticFile
        && r.value.referenceFile == referenceFile
        && r.value.membershipTestFile == membershipTestFile
        && r.value.membershipLblFile == membershipLblFile
        && r.value.resultsSaveDir == ResultsSaveDir(resolved.fields)
        && r.value.miaConfig == resolved.miaConfig
        && r.value.files == existing
    {
      var resolved := Resolve(config, miaExperimentName);
      if resolved.Failure? {
        return Failure(resolved.error);
      }
      var model := new BaseMiaModel(config, resolved.value, syntheticFile, membershipTestFile,
                                    membershipLblFile, referenceFile, existing);
      return Success(model);
    }

    /** `evaluate_attack`: computes the metrics of every method in order and
        writes the tagged evaluation table to `fileName`; if some method's
        metrics raise, nothing is written and that error is returned. */
    method EvaluateAttack(scores: Scores, labels: seq<Label>, fileName: string, rank: Ranker)
      returns (err: Option<MetricsError>)
      requires scores.ByMethod? ==> DistinctKeys(scores.entries)
      modifies this
      ensures var table := EvaluateAll(Normalize(scores, attackModel), labels, rank);
        && (table.Failure? ==> err == Some(table.error) && files == old(files))
        && (table.Success? ==> err.None? && files == old(files)[fileName := ResultTable(TagMethods(table.value))])
    {
      var entries := Normalize(scores, attackModel);
      var evalResults := EvaluateMethods(entries, labels, rank);
      if evalResults.Failure? {
        return Some(evalResults.error);
      }
      SaveEvalResults(evalResults.value, fileName);
      return None;
    }

    /** `_save_eval_results`: tags every record with its method and writes
        the records, in order, as the table `fileName`. */
    method SaveEvalResults(evalResults: Dict<string, Row>, fileName: string)
      modifies this
      ensures files == old(files)[fileName := ResultTable(TagMethods(evalResults))]
    {
      var resultsList: seq<Row> := [];
      for i := 0 to |evalResults|
        invariant resultsList == TagMethods(evalResults[..i])
      {
        var methodName, metrics := evalResults[i].0, evalResults[i].1;
        metrics := Set(metrics, MethodField, Name(methodName));
        resultsList := resultsList + [metrics];
        assert evalResults[..i + 1][..i] == evalResults[..i];
      }
      assert evalResults[..|evalResults|] == evalResults;
      files := files[fileName := ResultTable(resultsList)];
    }

    /** `save_predictions`: writes each key's scores to
        `{key}_predictions.csv`, in the dictionary's order. */
    method SavePredictions(scores: Dict<string, seq<real>>)
      modifies this
      ensures files == SavedFiles(old(files), scores, membershipLabelCol)
    {
      for i := 0 to |scores|
        invariant files == SavedFiles(old(files), scores[..i], membershipLabelCol)
      {
        files := files[PredictionFileName(scores[i].0) := PredictionTable(membershipLabelCol, scores[i].1)];
        assert scores[..i + 1][..i] == scores[..i];
      }
      assert scores[..|scores|] == scores;
    }

    /** `load_predictions`: lists the directory in some order and loads every
        file whose name ends with the suffix under the key left once the
        suffix is deleted from its name. */
    method LoadPredictions() returns (predictions: Dict<string, FileContent>)
      ensures LoadedFrom(files, predictions)
    {
      var pending := files.Keys;
      ghost var visited: map<string, FileContent> := map[];
      predictions := [];
      while pending != {}
        invariant pending <= files.Keys
        invariant visited.Keys == files.Keys - pending
        invariant forall name :: name in visited ==> visited[name] == files[name]
        invariant LoadedFrom(visited, predictions)
        decreases |pending|
      {
        var name :| name in pending;
        pending := pending - {name};
        LoadStep(visited, predictions, name, files[name]);
        if EndsWith(name, PredictionSuffix) {
          predictions := Set(predictions, KeyOfFileName(name), files[name]);
        }
        visited := visited[name := files[name]];
      }
      assert visited == files;
    }
  }
}
