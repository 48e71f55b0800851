/**
 * Data-quality rules: the `DQRule` record with its field constraints, its conversion to
 * and from a JSON object, and `DQRuleSet`, the collection of rules of one dataset with its
 * queries and its summary.
 */
module DqRule {
  import opened Wrappers
  import opened Text
  import opened Numbers
  import opened Lists
  import opened JsonValues

  datatype DQRule = DQRule(
    ruleId: string,
    attributeName: string,
    ruleCategory: string,
    ruleType: string,
    ruleExpression: string,
    ruleExpressionSql: string,
    ruleExpressionPython: string,
    severity: string,
    description: string,
    thresholdPercent: real,
    derivedFrom: string,
    confidenceScore: real,
    sampleValidValues: seq<string>,
    sampleInvalidValues: seq<string>)
  {
    /** The field constraints: the id starts with `DQ_`, the threshold is a percentage and
        the confidence a fraction. */
    predicate Valid() {
      && StartsWith(ruleId, "DQ_")
      && 0.0 <= thresholdPercent <= 100.0
      && 0.0 <= confidenceScore <= 1.0
    }
  }

  /** The six rule categories and four severities, in the order the summary lists them. */
  const Categories: seq<string> := ["Completeness", "Validity", "Accuracy", "Consistency", "Uniqueness", "Timeliness"]
  const Severities: seq<string> := ["Critical", "High", "Medium", "Low"]

  /** A required `str` field: present and a JSON string. */
  function StrField(d: JsonDict, key: string): (r: Option<string>)
    ensures r.Some? <==> key in d && d[key].JStr?
    ensures r.Some? ==> d[key] == JStr(r.value)
  {
    if key in d && d[key].JStr? then Some(d[key].s) else None
  }

  /** A required `float` field, converted as the model layer converts in lax mode: a
      number, a boolean as 1 or 0, or a string holding a decimal number. */
  function FloatField(d: JsonDict, key: string): (r: Option<real>)
    ensures key !in d ==> r.None?
    ensures key in d && d[key].JNum? ==> r == Some(d[key].n)
    ensures key in d && (d[key].JNull? || d[key].JArray? || d[key].JObject?) ==> r.None?
  {
    if key !in d then None
    else match d[key]
      case JNum(n) => Some(n)
      case JBool(b) => Some(if b then 1.0 else 0.0)
      case JStr(s) => ParseDecimal(s)
      case _ => None
  }

  /** The strings of a JSON array all of whose items are strings. */
  function Strings(items: seq<Json>): (r: Option<seq<string>>)
    ensures r.Some? <==> forall k :: 0 <= k < |items| ==> items[k].JStr?
    ensures r.Some? ==> |r.value| == |items| && forall k :: 0 <= k < |items| ==> items[k] == JStr(r.value[k])
  {
    if items == [] then Some([])
    else match Strings(items[..|items| - 1])
      case None => None
      case Some(init) =>
        if items[|items| - 1].JStr? then Some(init + [items[|items| - 1].s]) else None
  }

  /** A `List[str]` field with an empty list as its default. */
  function StrListField(d: JsonDict, key: string): (r: Option<seq<string>>)
    ensures key !in d ==> r == Some([])
    ensures key in d && !d[key].JArray? ==> r.None?
  {
    if key !in d then Some([])
    else if d[key].JArray? then Strings(d[key].items)
    else None
  }

  /** `DQRule(**d)`: every `str` field present as a string, both numbers present and
      convertible, both lists well-formed, and the constraints of `Valid` met; keys that
      are not fields are ignored. */
  function RuleFromDict(d: JsonDict): (r: Result<DQRule>)
    ensures r.Success? ==> r.value.Valid()
    ensures r.Success? ==>
      && StrField(d, "rule_id") == Some(r.value.ruleId)
      && StrField(d, "attribute_name") == Some(r.value.attributeName)
      && StrField(d, "rule_category") == Some(r.value.ruleCategory)
      && StrField(d, "rule_type") == Some(r.value.ruleType)
      && StrField(d, "rule_expression") == Some(r.value.ruleExpression)
      && StrField(d, "rule_expression_sql") == Some(r.value.ruleExpressionSql)
      && StrField(d, "rule_expression_python") == Some(r.value.ruleExpressionPython)
      && StrField(d, "severity") == Some(r.value.severity)
      && StrField(d, "description") == Some(r.value.description)
      && StrField(d, "derived_from") == Some(r.value.derivedFrom)
    ensures r.Success? ==>
      && Some(r.value.thresholdPercent) == FloatField(d, "threshold_percent")
      && Some(r.value.confidenceScore) == FloatField(d, "confidence_score")
      && StrListField(d, "sample_valid_values") == Some(r.value.sampleValidValues)
      && StrListField(d, "sample_invalid_values") == Some(r.value.sampleInvalidValues)
    ensures (exists key :: key in StrKeys && StrField(d, key).None?) ==> r.Failure?
    ensures FloatField(d, "threshold_percent").None? || FloatField(d, "confidence_score").None? ==> r.Failure?
    ensures StrListField(d, "sample_valid_values").None? || StrListField(d, "sample_invalid_values").None? ==> r.Failure?
    ensures FloatField(d, "threshold_percent").Some? && !(0.0 <= FloatField(d, "threshold_percent").value <= 100.0) ==> r.Failure?
    ensures FloatField(d, "confidence_score").Some? && !(0.0 <= FloatField(d, "confidence_score").value <= 1.0) ==> r.Failure?
    ensures StrField(d, "rule_id").Some? && !StartsWith(StrField(d, "rule_id").value, "DQ_") ==> r.Failure?
  {
    match FieldsFromDict(d)
    case None => Failure("validation error: missing or mistyped field")
    case Some(rule) =>
      if !StartsWith(rule.ruleId, "DQ_") then
        Failure("Rule ID must start with 'DQ_'")
      else if !(0.0 <= rule.thresholdPercent <= 100.0) then
        Failure("validation error: threshold_percent must be within [0, 100]")
      else if !(0.0 <= rule.confidenceScore <= 1.0) then
        Failure("validation error: confidence_score must be within [0, 1]")
      else
        Success(rule)
  }

  /** The fourteen fields read and converted, before the constraints of `Valid` are checked;
      None when a field is missing or of the wrong type. */
  function FieldsFromDict(d: JsonDict): (r: Option<DQRule>)
    ensures r.Some? ==>
      && StrField(d, "rule_id") == Some(r.value.ruleId)
      && StrField(d, "attribute_name") == Some(r.value.attributeName)
      && StrField(d, "rule_category") == Some(r.value.ruleCategory)
      && StrField(d, "rule_type") == Some(r.value.ruleType)
      && StrField(d, "rule_expression") == Some(r.value.ruleExpression)
      && StrField(d, "rule_expression_sql") == Some(r.value.ruleExpressionSql)
      && StrField(d, "rule_expression_python") == Some(r.value.ruleExpressionPython)
      && StrField(d, "severity") == Some(r.value.severity)
      && StrField(d, "description") == Some(r.value.description)
      && StrField(d, "derived_from") == Some(r.value.derivedFrom)
    ensures r.Some? ==>
      && Some(r.value.thresholdPercent) == FloatField(d, "threshold_percent")
      && Some(r.value.confidenceScore) == FloatField(d, "confidence_score")
      && StrListField(d, "sample_valid_values") == Some(r.value.sampleValidValues)
      && StrListField(d, "sample_invalid_values") == Some(r.value.sampleInvalidValues)
    ensures (exists key :: key in StrKeys && StrField(d, key).None?) ==> r.None?
    ensures FloatField(d, "threshold_percent").None? || FloatField(d, "confidence_score").None? ==> r.None?
    ensures StrListField(d, "sample_valid_values").None? || StrListField(d, "sample_invalid_values").None? ==> r.None?
  {
    var ruleId := StrField(d, "rule_id");
    var attributeName := StrField(d, "attribute_name");
    var ruleCategory := StrField(d, "rule_category");
    var ruleType := StrField(d, "rule_type");
    var expression := StrField(d, "rule_expression");
    var expressionSql := StrField(d, "rule_expression_sql");
    var expressionPython := StrField(d, "rule_expression_python");
    var severity := StrField(d, "severity");
    var description := StrField(d, "description");
    var derivedFrom := StrField(d, "derived_from");
    var threshold := FloatField(d, "threshold_percent");
    var confidence := FloatField(d, "confidence_score");
    var validValues := StrListField(d, "sample_valid_values");
    var invalidValues := StrListField(d, "sample_invalid_values");
    if || ruleId.None? || attributeName.None? || ruleCategory.None? || ruleType.None?
       || expression.None? || expressionSql.None? || expressionPython.None? || severity.None?
       || description.None? || derivedFrom.None? || threshold.None? || confidence.None?
       || validValues.None? || invalidValues.None?
    then None
    else
      Some(DQRule(ruleId.value, attributeName.value, ruleCategory.value, ruleType.value,
        expression.value, expressionSql.value, expressionPython.value, severity.value,
        description.value, threshold.value, derivedFrom.value, confidence.value,
        validValues.value, invalidValues.value))
  }

  /** A dictionary whose string fields are strings, whose id starts with `DQ_`, whose numbers
      convert to values in range and whose lists hold strings becomes a rule. */
  lemma RuleFromDictSucceeds(d: JsonDict)
    requires forall key :: key in StrKeys ==> StrField(d, key).Some?
    requires StartsWith(StrField(d, "rule_id").value, "DQ_")
    requires FloatField(d, "threshold_percent").Some? && 0.0 <= FloatField(d, "threshold_percent").value <= 100.0
    requires FloatField(d, "confidence_score").Some? && 0.0 <= FloatField(d, "confidence_score").value <= 1.0
    requires StrListField(d, "sample_valid_values").Some? && StrListField(d, "sample_invalid_values").Some?
    ensures RuleFromDict(d).Success?
  {
    assert StrField(d, "attribute_name").Some? && StrField(d, "rule_category").Some?;
    assert StrField(d, "rule_type").Some? && StrField(d, "rule_expression").Some?;
    assert StrField(d, "rule_expression_sql").Some? && StrField(d, "rule_expression_python").Some?;
    assert StrField(d, "severity").Some? && StrField(d, "description").Some?;
    assert StrField(d, "derived_from").Some?;
  }

  /** The ten keys whose values must be strings. */
  const StrKeys: set<string> := {
    "rule_id", "attribute_name", "rule_category", "rule_type", "rule_expression",
    "rule_expression_sql", "rule_expression_python", "severity", "description", "derived_from"}

  function JsonStrings(xs: seq<string>): (r: seq<Json>)
    ensures |r| == |xs| && forall k :: 0 <= k < |xs| ==> r[k] == JStr(xs[k])
  {
    seq(|xs|, k requires 0 <= k < |xs| => JStr(xs[k]))
  }

  /** `to_dict()`: all fourteen fields under their Python names. */
  function ToDict(r: DQRule): (d: JsonDict)
    ensures forall key :: key in StrKeys ==> key in d && d[key].JStr?
    ensures "threshold_percent" in d && d["threshold_percent"] == JNum(r.thresholdPercent)
    ensures "confidence_score" in d && d["confidence_score"] == JNum(r.confidenceScore)
  {
    var d := map[
      "rule_id" := JStr(r.ruleId),
      "attribute_name" := JStr(r.attributeName),
      "rule_category" := JStr(r.ruleCategory),
      "rule_type" := JStr(r.ruleType),
      "rule_expression" := JStr(r.ruleExpression),
      "rule_expression_sql" := JStr(r.ruleExpressionSql),
      "rule_expression_python" := JStr(r.ruleExpressionPython),
      "severity" := JStr(r.severity),
      "description" := JStr(r.description),
      "threshold_percent" := JNum(r.thresholdPercent),
      "derived_from" := JStr(r.derivedFrom),
      "confidence_score" := JNum(r.confidenceScore),
      "sample_valid_values" := JArray(JsonStrings(r.sampleValidValues)),
      "sample_invalid_values" := JArray(JsonStrings(r.sampleInvalidValues))];
    d
  }

  lemma {:induction false} StringsOfJsonStrings(xs: seq<string>)
    ensures Strings(JsonStrings(xs)) == Some(xs)
  {
    if xs != [] {
      var init := xs[..|xs| - 1];
      StringsOfJsonStrings(init);
      assert JsonStrings(xs)[..|xs| - 1] == JsonStrings(init);
      assert init + [xs[|xs| - 1]] == xs;
    }
  }

  /** Rebuilding a rule from its `to_dict()` gives the same rule back. */
  lemma ToDictRoundTrip(r: DQRule)
    requires r.Valid()
    ensures RuleFromDict(ToDict(r)) == Success(r)
  {
    ToDictStrings(r);
    ToDictOthers(r);
    RuleFromFields(ToDict(r), r);
  }

  /** A dictionary that holds every field of a valid rule becomes that rule. */
  lemma RuleFromFields(d: JsonDict, r: DQRule)
    requires r.Valid()
    requires && StrField(d, "rule_id") == Some(r.ruleId)
      && StrField(d, "attribute_name") == Some(r.attributeName)
      && StrField(d, "rule_category") == Some(r.ruleCategory)
      && StrField(d, "rule_type") == Some(r.ruleType)
      && StrField(d, "rule_expression") == Some(r.ruleExpression)
      && StrField(d, "rule_expression_sql") == Some(r.ruleExpressionSql)
      && StrField(d, "rule_expression_python") == Some(r.ruleExpressionPython)
      && StrField(d, "severity") == Some(r.severity)
      && StrField(d, "description") == Some(r.description)
      && StrField(d, "derived_from") == Some(r.derivedFrom)
    requires && FloatField(d, "threshold_percent") == Some(r.thresholdPercent)
      && FloatField(d, "confidence_score") == Some(r.confidenceScore)
      && StrListField(d, "sample_valid_values") == Some(r.sampleValidValues)
      && StrListField(d, "sample_invalid_values") == Some(r.sampleInvalidValues)
    ensures RuleFromDict(d) == Success(r)
  {
    assert FieldsFromDict(d) == Some(r);
  }

  /** Each string field of a rule is read back from its `to_dict()`. */
  lemma ToDictStrings(r: DQRule)
    ensures var d := ToDict(r);
      && StrField(d, "rule_id") == Some(r.ruleId)
      && StrField(d, "attribute_name") == Some(r.attributeName)
      && StrField(d, "rule_category") == Some(r.ruleCategory)
      && StrField(d, "rule_type") == Some(r.ruleType)
      && StrField(d, "rule_expression") == Some(r.ruleExpression)
      && StrField(d, "rule_expression_sql") == Some(r.ruleExpressionSql)
      && StrField(d, "rule_expression_python") == Some(r.ruleExpressionPython)
      && StrField(d, "severity") == Some(r.severity)
      && StrField(d, "description") == Some(r.description)
      && StrField(d, "derived_from") == Some(r.derivedFrom)
  {
  }

  /** The numeric and list fields of a rule are read back from its `to_dict()`. */
  lemma ToDictOthers(r: DQRule)
    ensures var d := ToDict(r);
      && FloatField(d, "threshold_percent") == Some(r.thresholdPercent)
      && FloatField(d, "confidence_score") == Some(r.confidenceScore)
      && StrListField(d, "sample_valid_values") == Some(r.sampleValidValues)
      && StrListField(d, "sample_invalid_values") == Some(r.sampleInvalidValues)
  {
    StringsOfJsonStrings(r.sampleValidValues);
    StringsOfJsonStrings(r.sampleInvalidValues);
  }

  function Category(r: DQRule): string { r.ruleCategory }
  function Attribute(r: DQRule): string { r.attributeName }
  function SeverityOf(r: DQRule): string { r.severity }

  /** The rules whose `key` is `value`, in their order (`[r for r in rules if key(r) == value]`). */
  function SelectBy(rules: seq<DQRule>, key: DQRule -> string, value: string): (r: seq<DQRule>)
    ensures IsSubsequence(r, rules)
    ensures forall x :: x in r <==> x in rules && key(x) == value
  {
    var r := Filter(rules, x => key(x) == value);
    FilterIsSubsequence(rules, x => key(x) == value);
    forall x ensures x in r <==> x in rules && key(x) == value {
      FilterMembers(rules, x => key(x) == value, x);
    }
    r
  }

  lemma SelectByLast(rules: seq<DQRule>, x: DQRule, key: DQRule -> string, value: string)
    ensures SelectBy(rules + [x], key, value) == SelectBy(rules, key, value) + (if key(x) == value then [x] else [])
  {
    assert (rules + [x])[..|rules|] == rules;
  }

  /** The number of rules whose key is one of `values`, counted value by value. */
  function SumCounts(rules: seq<DQRule>, key: DQRule -> string, values: seq<string>): nat {
    if values == [] then 0
    else SumCounts(rules, key, values[..|values| - 1]) + |SelectBy(rules, key, values[|values| - 1])|
  }

  /** How many of `values` a single key equals. */
  function Hits(values: seq<string>, k: string): nat {
    if values == [] then 0
    else Hits(values[..|values| - 1], k) + (if values[|values| - 1] == k then 1 else 0)
  }

  lemma {:induction false} HitsDistinct(values: seq<string>, k: string)
    requires Distinct(values)
    ensures Hits(values, k) <= 1
    ensures Hits(values, k) == 1 <==> k in values
  {
    if values != [] {
      var init := values[..|values| - 1];
      HitsDistinct(init, k);
      assert values == init + [values[|values| - 1]];
      if values[|values| - 1] == k {
        assert k !in init;
      }
    }
  }

  lemma {:induction false} SumCountsLast(rules: seq<DQRule>, x: DQRule, key: DQRule -> string, values: seq<string>)
    ensures SumCounts(rules + [x], key, values) == SumCounts(rules, key, values) + Hits(values, key(x))
  {
    if values != [] {
      SumCountsLast(rules, x, key, values[..|values| - 1]);
      SelectByLast(rules, x, key, values[|values| - 1]);
    }
  }

  /** Counting rule by rule over distinct keys never counts a rule twice. */
  lemma {:induction false} SumCountsBound(rules: seq<DQRule>, key: DQRule -> string, values: seq<string>)
    requires Distinct(values)
    ensures SumCounts(rules, key, values) <= |rules|
  {
    if rules == [] {
      SumCountsEmpty(key, values);
    } else {
      var init := rules[..|rules| - 1];
      var x := rules[|rules| - 1];
      SumCountsBound(init, key, values);
      assert init + [x] == rules;
      SumCountsLast(init, x, key, values);
      HitsDistinct(values, key(x));
    }
  }

  lemma {:induction false} SumCountsEmpty(key: DQRule -> string, values: seq<string>)
    ensures SumCounts([], key, values) == 0
  {
    if values != [] {
      SumCountsEmpty(key, values[..|values| - 1]);
    }
  }

  function SumConfidence(rules: seq<DQRule>): real {
    if rules == [] then 0.0 else SumConfidence(rules[..|rules| - 1]) + rules[|rules| - 1].confidenceScore
  }

  lemma {:induction false} SumConfidenceBounds(rules: seq<DQRule>)
    requires forall k :: 0 <= k < |rules| ==> rules[k].Valid()
    ensures 0.0 <= SumConfidence(rules) <= |rules| as real
  {
    if rules != [] {
      SumConfidenceBounds(rules[..|rules| - 1]);
    }
  }

  /** The summary of a rule set. `attributes_covered` is `list(set(...))`, whose order
      Python leaves unspecified, so it is a set here. */
  datatype Summary = Summary(
    totalRules: nat,
    rulesByCategory: map<string, nat>,
    rulesBySeverity: map<string, nat>,
    attributesCovered: set<string>,
    avgConfidenceScore: real)

  /** `generate_summary()` as a value. */
  function SummaryOf(rules: seq<DQRule>): (s: Summary)
    ensures s.totalRules == |rules|
    ensures s.rulesByCategory.Keys == set c | c in Categories
    ensures forall c :: c in Categories ==> s.rulesByCategory[c] == |SelectBy(rules, Category, c)|
    ensures s.rulesBySeverity.Keys == set v | v in Severities
    ensures forall v :: v in Severities ==> s.rulesBySeverity[v] == |SelectBy(rules, SeverityOf, v)|
    ensures forall a :: a in s.attributesCovered <==> exists k :: 0 <= k < |rules| && rules[k].attributeName == a
    ensures rules == [] ==> s.avgConfidenceScore == 0.0
  {
    Summary(
      |rules|,
      map c | c in Categories :: |SelectBy(rules, Category, c)|,
      map v | v in Severities :: |SelectBy(rules, SeverityOf, v)|,
      set k | 0 <= k < |rules| :: rules[k].attributeName,
      if rules == [] then 0.0 else SumConfidence(rules) / |rules| as real)
  }

  lemma CategoriesDistinct()
    ensures Distinct(Categories) && Distinct(Severities)
  {
    assert Categories[1][0] != Categories[2][0];
    assert Categories[4][0] != Categories[5][0];
  }

  /** The per-category and per-severity counts never add up to more than the rules. */
  lemma SummaryCountsBound(rules: seq<DQRule>)
    ensures SumCounts(rules, Category, Categories) <= |rules|
    ensures SumCounts(rules, SeverityOf, Severities) <= |rules|
  {
    CategoriesDistinct();
    SumCountsBound(rules, Category, Categories);
    SumCountsBound(rules, SeverityOf, Severities);
  }

  /** The average confidence of valid rules is a fraction. */
  lemma SummaryConfidenceBound(rules: seq<DQRule>)
    requires forall k :: 0 <= k < |rules| ==> rules[k].Valid()
    ensures 0.0 <= SummaryOf(rules).avgConfidenceScore <= 1.0
  {
    if rules != [] {
      SumConfidenceBounds(rules);
      var n := |rules| as real;
      DivMonotone(0.0, SumConfidence(rules), n);
      DivMonotone(SumConfidence(rules), n, n);
      assert SummaryOf(rules).avgConfidenceScore == SumConfidence(rules) / n;
    }
  }

  /** `DQRuleSet.to_dict()` as a value: the rules converted one by one and the summary. */
  datatype RuleSetDoc = RuleSetDoc(
    datasetName: string,
    parentClass: string,
    totalRecords: int,
    generatedAt: string,
    sourceProfiling: string,
    rules: seq<JsonDict>,
    summary: Summary)

  function RulesToDicts(rules: seq<DQRule>): (ds: seq<JsonDict>)
    ensures |ds| == |rules| && forall k :: 0 <= k < |rules| ==> ds[k] == ToDict(rules[k])
  {
    seq(|rules|, k requires 0 <= k < |rules| => ToDict(rules[k]))
  }

  /** The rules of one dataset. `summary` is `None` while the Python dict is empty. The
      creation time is passed in rather than read from the clock. */
  class DQRuleSet {
    var datasetName: string
    var parentClass: string
    var totalRecords: int
    var generatedAt: string
    var sourceProfiling: string
    var rules: seq<DQRule>
    var summary: Option<Summary>

    constructor (datasetName: string, totalRecords: int, sourceProfiling: string, generatedAt: string)
      ensures this.datasetName == datasetName && this.totalRecords == totalRecords
      ensures this.sourceProfiling == sourceProfiling && this.generatedAt == generatedAt
      ensures parentClass == "Unknown" && rules == [] && summary == None
    {
      this.datasetName := datasetName;
      this.parentClass := "Unknown";
      this.totalRecords := totalRecords;
      this.generatedAt := generatedAt;
      this.sourceProfiling := sourceProfiling;
      this.rules := [];
      this.summary := None;
    }

    /** `add_rule(rule)`: appends at the end and changes nothing else. */
    method AddRule(rule: DQRule)
      modifies this
      ensures rules == old(rules) + [rule]
      ensures datasetName == old(datasetName) && parentClass == old(parentClass)
      ensures totalRecords == old(totalRecords) && generatedAt == old(generatedAt)
      ensures sourceProfiling == old(sourceProfiling) && summary == old(summary)
    {
      rules := rules + [rule];
    }

    function GetRulesByCategory(category: string): (r: seq<DQRule>)
      reads this
      ensures IsSubsequence(r, rules)
      ensures forall x :: x in r <==> x in rules && x.ruleCategory == category
    {
      SelectBy(rules, Category, category)
    }

    function GetRulesByAttribute(attribute: string): (r: seq<DQRule>)
      reads this
      ensures IsSubsequence(r, rules)
      ensures forall x :: x in r <==> x in rules && x.attributeName == attribute
    {
      SelectBy(rules, Attribute, attribute)
    }

    function GetRulesBySeverity(severity: string): (r: seq<DQRule>)
      reads this
      ensures IsSubsequence(r, rules)
      ensures forall x :: x in r <==> x in rules && x.severity == severity
    {
      SelectBy(rules, SeverityOf, severity)
    }

    /** `generate_summary()`: stores the summary of the current rules and returns it. */
    method GenerateSummary() returns (s: Summary)
      modifies this
      ensures s == SummaryOf(rules) && summary == Some(s)
      ensures forall c :: c in Categories ==> s.rulesByCategory[c] == |GetRulesByCategory(c)|
      ensures forall v :: v in Severities ==> s.rulesBySeverity[v] == |GetRulesBySeverity(v)|
      ensures rules == old(rules) && datasetName == old(datasetName) && parentClass == old(parentClass)
      ensures totalRecords == old(totalRecords) && generatedAt == old(generatedAt)
      ensures sourceProfiling == old(sourceProfiling)
    {
      s := SummaryOf(rules);
      summary := Some(s);
    }

    /** `to_dict()`: generates the summary only when there is none yet. */
    method ToDict() returns (doc: RuleSetDoc)
      modifies this
      ensures old(summary).Some? ==> summary == old(summary)
      ensures old(summary).None? ==> summary == Some(SummaryOf(rules))
      ensures summary.Some? && doc.summary == summary.value
      ensures doc.rules == RulesToDicts(rules) && doc.datasetName == datasetName
      ensures doc.parentClass == parentClass && doc.totalRecords == totalRecords
      ensures doc.generatedAt == generatedAt && doc.sourceProfiling == sourceProfiling
      ensures rules == old(rules) && datasetName == old(datasetName) && parentClass == old(parentClass)
      ensures totalRecords == old(totalRecords) && generatedAt == old(generatedAt)
      ensures sourceProfiling == old(sourceProfiling)
    {
      if summary.None? {
        var _ := GenerateSummary();
      }
      doc := RuleSetDoc(datasetName, parentClass, totalRecords, generatedAt, sourceProfiling,
        RulesToDicts(rules), summary.value);
    }
  }
}
