/** The configuration the attack model is built from, and what the
    constructor reads out of it: the seven components of the results
    directory and the attack model's own section. */
module Settings {
  import opened Outcomes
  import opened Paths

  /** A parsed configuration value: text, a nested section, or anything
      else (numbers, lists, null). */
  datatype ConfigValue = Text(text: string) | Table(entries: map<string, ConfigValue>) | Other

  type Config = map<string, ConfigValue>

  /** Why the constructor raises. */
  datatype InitError =
    | MissingKey(path: seq<string>)   // KeyError on a missing entry
    | NotATable(path: seq<string>)    // TypeError: subscripting a value that is not a section
    | PathPartNotText(position: nat)  // TypeError from os.path.join on a non-string component
    | NoAttackConfig(attackModel: string) // ValueError: no section for the attack model

  /** `config[key]`. */
  function Entry(config: Config, key: string): (r: Result<ConfigValue, InitError>)
    ensures r.Success? <==> key in config
    ensures r.Success? ==> r.value == config[key]
    ensures r.Failure? ==> r.error == MissingKey([key])
  {
    if key in config then Success(config[key]) else Failure(MissingKey([key]))
  }

  /** `config[section][key]`, given the value `v` of `config[section]`. */
  function Field(v: ConfigValue, section: string, key: string): (r: Result<ConfigValue, InitError>)
    ensures r.Success? <==> v.Table? && key in v.entries
    ensures r.Success? ==> r.value == v.entries[key]
  {
    match v
    case Table(entries) => if key in entries then Success(entries[key]) else Failure(MissingKey([section, key]))
    case _ => Failure(NotATable([section]))
  }

  /** The components handed to os.path.join must all be strings; the first
      one that is not raises. */
  function Texts(vs: seq<ConfigValue>, offset: nat): (r: Result<seq<string>, InitError>)
    ensures r.Success? <==> forall i :: 0 <= i < |vs| ==> vs[i].Text?
    ensures r.Success? ==> |r.value| == |vs| && forall i :: 0 <= i < |vs| ==> r.value[i] == vs[i].text
    ensures r.Failure? ==> exists i :: 0 <= i < |vs| && r.error == PathPartNotText(offset + i) && !vs[i].Text?
  {
    if vs == [] then Success([])
    else if !vs[0].Text? then Failure(PathPartNotText(offset))
    else
      var rest :- Texts(vs[1..], offset + 1);
      assert forall i :: 1 <= i < |vs| ==> vs[i] == vs[1..][i - 1];
      Success([vs[0].text] + rest)
  }

  /** The attributes the constructor sets before it looks for the attack
      model's section. */
  datatype Fields = Fields(
    homeDir: string,
    miaFiles: string,
    generatorModel: string,
    experimentName: string,
    attackModel: string,
    datasetConfig: ConfigValue,
    datasetName: string,
    membershipLabelCol: ConfigValue,
    miaExperimentName: string)

  /** The components of the results directory, in the order they are
      joined. */
  function PathParts(f: Fields): (parts: seq<string>)
    ensures |parts| == 7 && parts[3] == f.attackModel && parts[6] == f.miaExperimentName
  {
    [f.homeDir, f.miaFiles, f.datasetName, f.attackModel, f.generatorModel, f.experimentName, f.miaExperimentName]
  }

  function ResultsSaveDir(f: Fields): string {
    JoinPath(PathParts(f))
  }

  ghost predicate HasEntry(v: ConfigValue, key: string) {
    v.Table? && key in v.entries
  }

  ghost predicate HasText(v: ConfigValue, key: string) {
    HasEntry(v, key) && v.entries[key].Text?
  }

  /** Every entry the constructor reads is present, every section it
      subscripts is a section, and every path component is text. */
  ghost predicate WellFormed(config: Config) {
    && "dir_list" in config
    && HasText(config["dir_list"], "home")
    && HasText(config["dir_list"], "mia_files")
    && "generator_config" in config
    && HasText(config["generator_config"], "model_name")
    && HasText(config["generator_config"], "experiment_name")
    && "attack_model" in config
    && config["attack_model"].Text?
    && "dataset_config" in config
    && HasText(config["dataset_config"], "name")
    && HasEntry(config["dataset_config"], "membership_label_col")
  }

  /** The constructor's reads, in the order the source performs them. A
      well-formed configuration yields exactly its own entries; any other
      configuration raises. */
  function ReadFields(config: Config, miaExperimentName: string): (r: Result<Fields, InitError>)
    ensures r.Success? <==> WellFormed(config)
    ensures r.Success? ==>
      var f := r.value;
      && f.homeDir == config["dir_list"].entries["home"].text
      && f.miaFiles == config["dir_list"].entries["mia_files"].text
      && f.generatorModel == config["generator_config"].entries["model_name"].text
      && f.experimentName == config["generator_config"].entries["experiment_name"].text
      && f.attackModel == config["attack_model"].text
      && f.datasetConfig == config["dataset_config"]
      && f.datasetName == config["dataset_config"].entries["name"].text
      && f.membershipLabelCol == config["dataset_config"].entries["membership_label_col"]
      && f.miaExperimentName == miaExperimentName
  {
    var dirList :- Entry(config, "dir_list");
    var home :- Field(dirList, "dir_list", "home");
    var generator :- Entry(config, "generator_config");
    var modelName :- Field(generator, "generator_config", "model_name");
    var experiment :- Field(generator, "generator_config", "experiment_name");
    var attack :- Entry(config, "attack_model");
    var dataset :- Entry(config, "dataset_config");
    var name :- Field(dataset, "dataset_config", "name");
    var labelCol :- Field(dataset, "dataset_config", "membership_label_col");
    var miaFiles :- Field(dirList, "dir_list", "mia_files");
    var parts :- Texts([home, miaFiles, name, attack, modelName, experiment], 0);
    Success(Fields(parts[0], parts[1], parts[4], parts[5], parts[3], dataset, parts[2], labelCol, miaExperimentName))
  }

  /** The name of the attack model's own section. */
  function ConfigKey(attackModel: string): string {
    attackModel + "_config"
  }

  datatype Resolved = Resolved(fields: Fields, miaConfig: ConfigValue)

  /** Everything the constructor computes, or the exception it raises.
      Once the entries read before it are in place, the constructor fails
      exactly when there is no section named after the attack model, and
      otherwise keeps that section. */
  function Resolve(config: Config, miaExperimentName: string): (r: Result<Resolved, InitError>)
    ensures ReadFields(config, miaExperimentName).Failure? ==> r == Failure(ReadFields(config, miaExperimentName).error)
    ensures r.Success? <==> WellFormed(config) && config["attack_model"].text + "_config" in config
    ensures WellFormed(config) && config["attack_model"].text + "_config" !in config ==>
      r == Failure(NoAttackConfig(config["attack_model"].text))
    ensures r.Success? ==>
      && r.value.fields == ReadFields(config, miaExperimentName).value
      && r.value.miaConfig == config[config["attack_model"].text + "_config"]
  {
    var f :- ReadFields(config, miaExperimentName);
    var key := ConfigKey(f.attackModel);
    if key in config then Success(Resolved(f, config[key]))
    else Failure(NoAttackConfig(f.attackModel))
  }

  /** With plain components, the results directory lists home, mia_files,
      dataset name, attack model, generator model, generator experiment and
      MIA experiment name, in this order. */
  lemma ResultsDirLayout(f: Fields)
    requires forall i :: 0 <= i < 7 ==> PlainComponent(PathParts(f)[i])
    ensures Split(ResultsSaveDir(f), Slash) ==
      [f.homeDir, f.miaFiles, f.datasetName, f.attackModel, f.generatorModel, f.experimentName, f.miaExperimentName]
  {
    JoinedComponentsRecoverable(PathParts(f));
  }

  /** An absolute MIA experiment name replaces the whole directory. */
  lemma AbsoluteExperimentName(f: Fields)
    requires StartsWith(f.miaExperimentName, [Slash])
    ensures ResultsSaveDir(f) == f.miaExperimentName
  {
    var parts := PathParts(f);
    AbsoluteComponentResets(parts[..6], parts[6], []);
    assert parts == parts[..6] + [parts[6]] + [];
  }

  /** The section lookup is by name only: an attack model called
      `generator` takes the generator's section as its own. */
  lemma GeneratorSectionReused(config: Config, miaExperimentName: string)
    requires WellFormed(config) && config["attack_model"] == Text("generator")
    ensures Resolve(config, miaExperimentName).Success?
    ensures Resolve(config, miaExperimentName).value.miaConfig == config["generator_config"]
  {
    assert ConfigKey("generator") == "generator_config";
  }
}
