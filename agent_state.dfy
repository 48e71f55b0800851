/**
 * The state the workflow nodes share: the outcome of validating one rule, the state
 * record with its initial value, and the merge rule for `candidate_rules`.
 */
module AgentState {
  import opened Wrappers
  import opened SampleData
  import opened DqRule
  import opened ProfilingStats

  /** The outcome of validating one rule against the sample. */
  datatype ValidationResult = ValidationResult(
    ruleId: string,
    passCount: int,
    failCount: int,
    passRate: real,
    sampleFailures: seq<Row>)

  /** `ValidationResult(rule_id=...)` with every other field left at its default. */
  function DefaultResult(ruleId: string): (r: ValidationResult)
    ensures r.ruleId == ruleId && r.passCount == 0 && r.failCount == 0
    ensures r.passRate == 0.0 && r.sampleFailures == []
  {
    ValidationResult(ruleId, 0, 0, 0.0, [])
  }

  /** One value of the dictionary `to_dict()` returns. */
  datatype ResultField = IdField(id: string) | CountField(count: int) | RateField(rate: real) | RowsField(rows: seq<Row>)

  /** `to_dict()`: the five fields under their Python names. */
  function ResultToDict(r: ValidationResult): (d: map<string, ResultField>)
    ensures d.Keys == {"rule_id", "pass_count", "fail_count", "pass_rate", "sample_failures"}
  {
    map["rule_id" := IdField(r.ruleId),
        "pass_count" := CountField(r.passCount),
        "fail_count" := CountField(r.failCount),
        "pass_rate" := RateField(r.passRate),
        "sample_failures" := RowsField(r.sampleFailures)]
  }

  /** Reads the five fields back from such a dictionary. */
  function ResultFromDict(d: map<string, ResultField>): Option<ValidationResult> {
    if && "rule_id" in d && d["rule_id"].IdField?
       && "pass_count" in d && d["pass_count"].CountField?
       && "fail_count" in d && d["fail_count"].CountField?
       && "pass_rate" in d && d["pass_rate"].RateField?
       && "sample_failures" in d && d["sample_failures"].RowsField?
    then
      Some(ValidationResult(d["rule_id"].id, d["pass_count"].count, d["fail_count"].count,
        d["pass_rate"].rate, d["sample_failures"].rows))
    else
      None
  }

  /** `to_dict()` carries every field unchanged: reading them back gives the same result. */
  lemma ResultDictRoundTrip(r: ValidationResult)
    ensures ResultFromDict(ResultToDict(r)) == Some(r)
  {
    var d := ResultToDict(r);
    assert d["rule_id"] == IdField(r.ruleId);
    assert d["pass_count"] == CountField(r.passCount);
    assert d["fail_count"] == CountField(r.failCount);
    assert d["pass_rate"] == RateField(r.passRate);
    assert d["sample_failures"] == RowsField(r.sampleFailures);
  }

  /** The reducer declared on `candidate_rules`: a node's update is appended to what the
      state already holds. */
  function MergeCandidates(current: seq<DQRule>, update: seq<DQRule>): (r: seq<DQRule>)
    ensures |r| == |current| + |update|
    ensures r[..|current|] == current && r[|current|..] == update
  {
    current + update
  }

  /** Merging several updates one after another is merging their concatenation: rules are
      only ever appended, in the order the nodes produced them. */
  lemma MergeAssociative(current: seq<DQRule>, u1: seq<DQRule>, u2: seq<DQRule>)
    ensures MergeCandidates(MergeCandidates(current, u1), u2) == MergeCandidates(current, u1 + u2)
  {
  }

  /** The keys of `dataset_context` that the nodes read or fill in. A missing key reads
      as the empty value, which is also falsy in Python. */
  datatype DatasetContext = DatasetContext(
    datasetName: string,
    domain: string,
    totalRecords: int,
    priorityAttributes: seq<string>)

  /** The contents of the state record at one moment, as a value. */
  datatype StateValue = StateValue(
    rawDataPath: string,
    profilingPath: string,
    schemaPath: string,
    profilingStats: ProfileTable,
    sampleData: seq<Row>,
    totalRecords: int,
    attributesToProcess: seq<string>,
    currentAttribute: Option<string>,
    candidateRules: seq<DQRule>,
    validatedRules: seq<DQRule>,
    validationResults: seq<ValidationResult>,
    outputJsonPath: string,
    outputExcelPath: string,
    iterationCount: int,
    errors: seq<string>,
    datasetContext: DatasetContext)

  /** `AgentState`: the record every node reads and updates. */
  class WorkflowState {
    var rawDataPath: string
    var profilingPath: string
    var schemaPath: string
    var profilingStats: ProfileTable
    var sampleData: seq<Row>
    var totalRecords: int
    var attributesToProcess: seq<string>
    var currentAttribute: Option<string>
    var candidateRules: seq<DQRule>
    var validatedRules: seq<DQRule>
    var validationResults: seq<ValidationResult>
    var outputJsonPath: string
    var outputExcelPath: string
    var iterationCount: int
    var errors: seq<string>
    var datasetContext: DatasetContext

    /** Every field of the record, read at once. */
    function Value(): (v: StateValue)
      reads this
    {
      StateValue(rawDataPath, profilingPath, schemaPath, profilingStats, sampleData, totalRecords,
        attributesToProcess, currentAttribute, candidateRules, validatedRules, validationResults,
        outputJsonPath, outputExcelPath, iterationCount, errors, datasetContext)
    }

    /** `create_initial_state(raw_data_path, profiling_path, schema_path)`. */
    constructor (rawDataPath: string, profilingPath: string, schemaPath: string)
      ensures this.rawDataPath == rawDataPath && this.profilingPath == profilingPath
      ensures this.schemaPath == schemaPath
      ensures profilingStats == [] && sampleData == [] && totalRecords == 0
      ensures attributesToProcess == [] && currentAttribute == None
      ensures candidateRules == [] && validatedRules == [] && validationResults == []
      ensures outputJsonPath == "" && outputExcelPath == ""
      ensures iterationCount == 0 && errors == []
      ensures datasetContext == DatasetContext("Contactors_Product_Data", "Product", 0, [])
    {
      this.rawDataPath := rawDataPath;
      this.profilingPath := profilingPath;
      this.schemaPath := schemaPath;
      profilingStats := [];
      sampleData := [];
      totalRecords := 0;
      attributesToProcess := [];
      currentAttribute := None;
      candidateRules := [];
      validatedRules := [];
      validationResults := [];
      outputJsonPath := "";
      outputExcelPath := "";
      iterationCount := 0;
      errors := [];
      datasetContext := DatasetContext("Contactors_Product_Data", "Product", 0, []);
    }
  }
}
