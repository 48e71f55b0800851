/** The derivation agent: it asks the language model for rules about one attribute at a
    time, cuts the JSON array out of the reply, normalises every proposed rule field by
    field and keeps the ones that then pass the rule model's validation. */
module RuleDerivation {
  import opened Wrappers
  import opened Text
  import opened Numbers
  import opened Lists
  import opened JsonValues
  import opened DqRule
  import opened ProfilingStats
  import opened DataProfiler
  import opened AgentState

  /** What the prompt tells the language model about one attribute: the facts of its
      analysis the prompt template prints (at most ten top values) and the dataset context. */
  datatype PromptFacts = PromptFacts(
    attributeName: string,
    dataType: string,
    missingPercentage: real,
    cardinality: string,
    range: Option<seq<Option<real>>>,
    topValues: seq<TopEntry>,
    recommendedRules: set<string>,
    datasetName: string,
    domain: string,
    totalRecords: int)

  /** The prompt facts of an attribute analysis within a dataset context. */
  function FactsOf(a: Analysis, context: DatasetContext): (f: PromptFacts)
    ensures f.attributeName == a.attributeName && |f.topValues| <= 10
  {
    PromptFacts(a.attributeName, a.dataType, a.missingPercentage, a.cardinality, a.range,
      Take(a.topValues, 10), a.recommendedRules, context.datasetName, context.domain, context.totalRecords)
  }

  /** What the model leaves to others: the language model's reply to the prompt built from
      the facts (none when the call raises), `json.loads` of a text that starts with `[`
      (none when it does not decode), and `str()` of a decoded JSON value. */
  datatype Oracles = Oracles(
    propose: PromptFacts -> Option<string>,
    decode: string -> Option<seq<Json>>,
    show: Json -> string)

  // ---------------------------------------------------------------------------------------
  // Rule ids

  /** `re.sub(r'[^a-zA-Z0-9]', '_', attr).upper()`. */
  function CleanAttribute(attr: string): (r: string)
    ensures |r| == |attr|
    ensures forall k :: 0 <= k < |r| ==> (IsAlphaNumeric(attr[k]) ==> r[k] == UpperChar(attr[k]))
    ensures forall k :: 0 <= k < |r| ==> (!IsAlphaNumeric(attr[k]) ==> r[k] == '_')
  {
    seq(|attr|, k requires 0 <= k < |attr| => if IsAlphaNumeric(attr[k]) then UpperChar(attr[k]) else '_')
  }

  /** The id given to the rule at `index` when the model proposes none. */
  function GeneratedId(attr: string, category: string, index: nat): (r: string)
    ensures StartsWith(r, "DQ_")
    ensures r == "DQ_" + CleanAttribute(attr) + "_" + Upper(Take(category, 3)) + "_" + ZeroPad3(index + 1)
  {
    "DQ_" + CleanAttribute(attr) + "_" + Upper(Take(category, 3)) + "_" + ZeroPad3(index + 1)
  }

  /** The id a proposed rule ends up with: its own when it is a string, else a generated one
      (the category, when given, must be a string), with `DQ_` put in front when missing. */
  function RuleIdOf(d: JsonDict, attr: string, index: nat): (r: Option<string>)
    ensures r.Some? ==> StartsWith(r.value, "DQ_")
    ensures "rule_id" in d && d["rule_id"].JStr? && StartsWith(d["rule_id"].s, "DQ_") ==>
      r == Some(d["rule_id"].s)
    ensures "rule_id" in d && d["rule_id"].JStr? && !StartsWith(d["rule_id"].s, "DQ_") ==>
      r == Some("DQ_" + d["rule_id"].s)
    ensures "rule_id" in d && !d["rule_id"].JStr? ==> r.None?
  {
    var id :=
      if "rule_id" in d then
        if d["rule_id"].JStr? then Some(d["rule_id"].s) else None
      else
        var category := if "rule_category" in d then d["rule_category"] else JStr("VALIDITY");
        if category.JStr? then Some(GeneratedId(attr, category.s, index)) else None;
    match id
    case None => None
    case Some(s) =>
      if StartsWith(s, "DQ_") then Some(s)
      else
        assert ("DQ_" + s)[..3] == "DQ_";
        Some("DQ_" + s)
  }

  // ---------------------------------------------------------------------------------------
  // Defaults

  /** The default SQL and pandas expressions of a proposed rule. */
  function DefaultSql(attr: string): string {
    "SELECT * FROM products WHERE \"" + attr + "\" IS NULL"
  }

  function DefaultPython(attr: string): string {
    "df[df['" + attr + "'].isna()]"
  }

  /** The defaults table, in its order. */
  function Defaults(attr: string): (table: seq<(string, Json)>)
    ensures |table| == 13
    ensures forall i :: 0 <= i < |table| ==> !table[i].1.JNull?
  {
    [ ("attribute_name", JStr(attr)),
      ("rule_category", JStr("Validity")),
      ("rule_type", JStr("CUSTOM")),
      ("rule_expression", JStr(attr + " validation")),
      ("rule_expression_sql", JStr(DefaultSql(attr))),
      ("rule_expression_python", JStr(DefaultPython(attr))),
      ("severity", JStr("Medium")),
      ("description", JStr("Validation rule for " + attr)),
      ("threshold_percent", JNum(5.0)),
      ("derived_from", JStr("profiling analysis")),
      ("confidence_score", JNum(0.8)),
      ("sample_valid_values", JArray([])),
      ("sample_invalid_values", JArray([])) ]
  }

  /** `d[k] = v` for every entry whose key is missing or null, entry by entry. */
  function FilledFrom(d: JsonDict, table: seq<(string, Json)>): (r: JsonDict)
    ensures r.Keys == d.Keys + set i | 0 <= i < |table| :: table[i].0
  {
    if table == [] then d
    else
      var init := FilledFrom(d, table[..|table| - 1]);
      var entry := table[|table| - 1];
      if entry.0 !in init || init[entry.0].JNull? then init[entry.0 := entry.1] else init
  }

  /** With distinct keys and no null defaults, filling keeps every field that is present and
      not null, gives every other key of the table its default, and leaves the keys outside
      the table alone. */
  lemma FilledFromShape(d: JsonDict, table: seq<(string, Json)>)
    requires forall i, j :: 0 <= i < j < |table| ==> table[i].0 != table[j].0
    requires forall i :: 0 <= i < |table| ==> !table[i].1.JNull?
    ensures forall i :: 0 <= i < |table| && table[i].0 in d && !d[table[i].0].JNull? ==>
      FilledFrom(d, table)[table[i].0] == d[table[i].0]
    ensures forall i :: 0 <= i < |table| && (table[i].0 !in d || d[table[i].0].JNull?) ==>
      FilledFrom(d, table)[table[i].0] == table[i].1
    ensures forall k :: k in d && (forall i :: 0 <= i < |table| ==> table[i].0 != k) ==>
      FilledFrom(d, table)[k] == d[k]
  {
    forall k | k in d && (forall i :: 0 <= i < |table| ==> table[i].0 != k)
      ensures FilledFrom(d, table)[k] == d[k]
    {
      FilledFromOutside(d, table, k);
    }
    forall i | 0 <= i < |table|
      ensures var k := table[i].0;
        && (k in d && !d[k].JNull? ==> FilledFrom(d, table)[k] == d[k])
        && (k !in d || d[k].JNull? ==> FilledFrom(d, table)[k] == table[i].1)
    {
      FilledFromInside(d, table, i);
    }
  }

  /** Filling leaves a key outside the table as it was. */
  lemma {:induction false} FilledFromOutside(d: JsonDict, table: seq<(string, Json)>, k: string)
    requires k in d && forall i :: 0 <= i < |table| ==> table[i].0 != k
    ensures FilledFrom(d, table)[k] == d[k]
  {
    if table != [] {
      FilledFromOutside(d, table[..|table| - 1], k);
    }
  }

  /** Filling keeps the key at `i` of the table when present and not null, and gives it its
      default otherwise. */
  lemma {:induction false} FilledFromInside(d: JsonDict, table: seq<(string, Json)>, i: nat)
    requires forall i, j :: 0 <= i < j < |table| ==> table[i].0 != table[j].0
    requires forall i :: 0 <= i < |table| ==> !table[i].1.JNull?
    requires i < |table|
    ensures var k := table[i].0;
      && (k in d && !d[k].JNull? ==> FilledFrom(d, table)[k] == d[k])
      && (k !in d || d[k].JNull? ==> FilledFrom(d, table)[k] == table[i].1)
  {
    var init := table[..|table| - 1];
    var k := table[i].0;
    if i < |table| - 1 {
      FilledFromInside(d, init, i);
      assert init[i] == table[i];
      assert table[|table| - 1].0 != k;
    } else {
      assert forall j :: 0 <= j < |init| ==> init[j].0 != k;
      var prev := FilledFrom(d, init);
      if k in d {
        FilledFromOutside(d, init, k);
      } else {
        assert k !in prev;
      }
    }
  }

  /** `_ensure_rule_fields`' loop over the defaults table. */
  method FillDefaults(d: JsonDict, table: seq<(string, Json)>) returns (out: JsonDict)
    ensures out == FilledFrom(d, table)
  {
    out := d;
    for i := 0 to |table|
      invariant out == FilledFrom(d, table[..i])
    {
      assert table[..i + 1][..i] == table[..i];
      var entry := table[i];
      if entry.0 !in out || out[entry.0].JNull? {
        out := out[entry.0 := entry.1];
      }
    }
    assert table[..|table|] == table;
  }

  /** The keys of the defaults table are distinct. */
  lemma DefaultsDistinct(attr: string)
    ensures forall i, j :: 0 <= i < j < 13 ==> Defaults(attr)[i].0 != Defaults(attr)[j].0
  {
    var t := Defaults(attr);
    forall i, j | 0 <= i < j < 13 ensures t[i].0 != t[j].0 {
      assert |t[i].0| != |t[j].0| || t[i].0[0] != t[j].0[0];
    }
  }

  // ---------------------------------------------------------------------------------------
  // Numbers and lists

  /** A numeric field as `_ensure_rule_fields` leaves it before clamping: a string is
      parsed, `fallback` when it does not parse; a number stays; a boolean counts as 1 or
      0; anything else makes the clamping raise. */
  function NumericValue(j: Json, fallback: real): (r: Option<real>)
    ensures j.JNum? ==> r == Some(j.n)
    ensures j.JStr? ==> r.Some? && (ParseDecimal(j.s).None? ==> r.value == fallback)
    ensures j.JStr? && ParseDecimal(j.s).Some? ==> r == ParseDecimal(j.s)
    ensures j.JNull? || j.JArray? || j.JObject? ==> r.None?
  {
    match j
    case JStr(s) => Some(ParseDecimal(s).GetOr(fallback))
    case JNum(n) => Some(n)
    case JBool(b) => Some(if b then 1.0 else 0.0)
    case _ => None
  }

  /** `[str(v) for v in items]`, with a non-list read as the empty list. */
  function Stringified(j: Json, show: Json -> string): (r: seq<Json>)
    ensures !j.JArray? ==> r == []
    ensures j.JArray? ==> |r| == |j.items|
    ensures forall k :: 0 <= k < |r| ==> r[k].JStr?
    ensures j.JArray? ==> forall k :: 0 <= k < |r| ==> j.items[k].JStr? ==> r[k] == j.items[k]
  {
    if j.JArray? then
      seq(|j.items|, k requires 0 <= k < |j.items| =>
        if j.items[k].JStr? then j.items[k] else JStr(show(j.items[k])))
    else []
  }

  // ---------------------------------------------------------------------------------------
  // One proposed rule

  /** The four fields `_ensure_rule_fields` converts after filling in the defaults. */
  const ConvertedKeys: set<string> := {"threshold_percent", "confidence_score", "sample_valid_values", "sample_invalid_values"}

  /** `d[key]`, or null when the key is missing. */
  function Get(d: JsonDict, key: string): (r: Json)
    ensures key !in d ==> r.JNull?
  {
    if key in d then d[key] else JNull
  }

  /** The proposed fields with the final id and the defaults filled in. */
  function Completed(fields: JsonDict, attr: string, id: string): JsonDict {
    FilledFrom(fields["rule_id" := JStr(id)], Defaults(attr))
  }

  /** After completion the id is the final one, and every key of the defaults table is
      present and not null: kept as proposed when it was present and not null, its default
      otherwise. */
  lemma CompletedShape(fields: JsonDict, attr: string, id: string)
    ensures var c := Completed(fields, attr, id);
      && "rule_id" in c && c["rule_id"] == JStr(id)
      && (forall i :: 0 <= i < 13 ==> Defaults(attr)[i].0 in c && !c[Defaults(attr)[i].0].JNull?)
      && (forall i :: 0 <= i < 13 && Defaults(attr)[i].0 in fields && !fields[Defaults(attr)[i].0].JNull? ==>
            c[Defaults(attr)[i].0] == fields[Defaults(attr)[i].0])
      && (forall i :: 0 <= i < 13 && (Defaults(attr)[i].0 !in fields || fields[Defaults(attr)[i].0].JNull?) ==>
            c[Defaults(attr)[i].0] == Defaults(attr)[i].1)
  {
    var table := Defaults(attr);
    var start := fields["rule_id" := JStr(id)];
    DefaultsDistinct(attr);
    FilledFromShape(start, table);
    DefaultsLeaveId(attr);
  }

  /** The defaults table never sets the id. */
  lemma DefaultsLeaveId(attr: string)
    ensures forall i :: 0 <= i < 13 ==> Defaults(attr)[i].0 != "rule_id"
  {
    var table := Defaults(attr);
    forall i | 0 <= i < 13 ensures table[i].0 != "rule_id" {
      assert |table[i].0| != |"rule_id"|;
    }
  }

  /** The conversions of the numbers and the sample lists. */
  function Converted(c: JsonDict, threshold: real, confidence: real, show: Json -> string): (r: JsonDict)
    ensures r.Keys == c.Keys + ConvertedKeys
    ensures forall key :: key in c && key !in ConvertedKeys ==> r[key] == c[key]
    ensures r["threshold_percent"] == JNum(Clamp(0.0, 100.0, threshold))
    ensures r["confidence_score"] == JNum(Clamp(0.0, 1.0, confidence))
    ensures r["sample_valid_values"] == JArray(Stringified(Get(c, "sample_valid_values"), show))
    ensures r["sample_invalid_values"] == JArray(Stringified(Get(c, "sample_invalid_values"), show))
  {
    c["confidence_score" := JNum(Clamp(0.0, 1.0, confidence))]
     ["threshold_percent" := JNum(Clamp(0.0, 100.0, threshold))]
     ["sample_valid_values" := JArray(Stringified(Get(c, "sample_valid_values"), show))]
     ["sample_invalid_values" := JArray(Stringified(Get(c, "sample_invalid_values"), show))]
  }

  /** `_ensure_rule_fields`: a proposed rule that is not an object, whose id or category is
      not a string, or whose numbers are of a kind the clamping cannot compare, raises. */
  function Normalized(ruleData: Json, attr: string, index: nat, show: Json -> string): Result<JsonDict> {
    if !ruleData.JObject? then Failure("rule is not an object")
    else
      match RuleIdOf(ruleData.fields, attr, index)
      case None => Failure("rule_id is not a string")
      case Some(id) =>
        var c := Completed(ruleData.fields, attr, id);
        var threshold := NumericValue(Get(c, "threshold_percent"), 5.0);
        var confidence := NumericValue(Get(c, "confidence_score"), 0.8);
        if threshold.None? || confidence.None? then Failure("a numeric field is not a number")
        else Success(Converted(c, threshold.value, confidence.value, show))
  }

  /** The imperative form of `_ensure_rule_fields`, updating the dictionary step by step. */
  method EnsureRuleFields(ruleData: Json, attr: string, index: nat, show: Json -> string)
    returns (r: Result<JsonDict>)
    ensures r == Normalized(ruleData, attr, index, show)
  {
    if !ruleData.JObject? {
      return Failure("rule is not an object");
    }
    var id := RuleIdOf(ruleData.fields, attr, index);
    if id.None? {
      return Failure("rule_id is not a string");
    }
    var d := ruleData.fields["rule_id" := JStr(id.value)];
    d := FillDefaults(d, Defaults(attr));
    var threshold := NumericValue(Get(d, "threshold_percent"), 5.0);
    var confidence := NumericValue(Get(d, "confidence_score"), 0.8);
    if threshold.None? || confidence.None? {
      return Failure("a numeric field is not a number");
    }
    var valid := Stringified(Get(d, "sample_valid_values"), show);
    var invalid := Stringified(Get(d, "sample_invalid_values"), show);
    d := d["confidence_score" := JNum(Clamp(0.0, 1.0, confidence.value))];
    d := d["threshold_percent" := JNum(Clamp(0.0, 100.0, threshold.value))];
    d := d["sample_valid_values" := JArray(valid)];
    d := d["sample_invalid_values" := JArray(invalid)];
    return Success(d);
  }

  /** A normalised rule carries the id `RuleIdOf` gives: one starting with `DQ_`, an
      existing prefix kept rather than doubled. */
  lemma NormalizedId(ruleData: Json, attr: string, index: nat, show: Json -> string)
    requires Normalized(ruleData, attr, index, show).Success?
    ensures ruleData.JObject? && RuleIdOf(ruleData.fields, attr, index).Some?
    ensures var d := Normalized(ruleData, attr, index, show).value;
      && "rule_id" in d && d["rule_id"] == JStr(RuleIdOf(ruleData.fields, attr, index).value)
      && StartsWith(d["rule_id"].s, "DQ_")
  {
    var id := RuleIdOf(ruleData.fields, attr, index).value;
    CompletedShape(ruleData.fields, attr, id);
  }

  /** Every key of the defaults table is present and not null in a normalised rule; apart
      from the four converted fields, each keeps its proposed value when that was present
      and not null, and takes its default otherwise. */
  lemma NormalizedFields(ruleData: Json, attr: string, index: nat, show: Json -> string)
    requires Normalized(ruleData, attr, index, show).Success?
    ensures ruleData.JObject?
    ensures var d := Normalized(ruleData, attr, index, show).value;
      && (forall i :: 0 <= i < 13 ==> Defaults(attr)[i].0 in d && !d[Defaults(attr)[i].0].JNull?)
      && (forall i :: (0 <= i < 13 && Defaults(attr)[i].0 !in ConvertedKeys &&
                       Defaults(attr)[i].0 in ruleData.fields && !ruleData.fields[Defaults(attr)[i].0].JNull?) ==>
            d[Defaults(attr)[i].0] == ruleData.fields[Defaults(attr)[i].0])
      && (forall i :: (0 <= i < 13 && Defaults(attr)[i].0 !in ConvertedKeys &&
                       (Defaults(attr)[i].0 !in ruleData.fields || ruleData.fields[Defaults(attr)[i].0].JNull?)) ==>
            d[Defaults(attr)[i].0] == Defaults(attr)[i].1)
  {
    var id := RuleIdOf(ruleData.fields, attr, index).value;
    CompletedShape(ruleData.fields, attr, id);
  }

  /** A normalised rule holds numbers: the threshold clamped into `[0, 100]` and the
      confidence into `[0, 1]`, each the proposed number, or its parse when it was a
      string; and both sample lists hold strings only. */
  lemma NormalizedNumbers(ruleData: Json, attr: string, index: nat, show: Json -> string)
    requires Normalized(ruleData, attr, index, show).Success?
    ensures var d := Normalized(ruleData, attr, index, show).value;
      && d["threshold_percent"].JNum? && 0.0 <= d["threshold_percent"].n <= 100.0
      && d["confidence_score"].JNum? && 0.0 <= d["confidence_score"].n <= 1.0
      && (ruleData.JObject? && "threshold_percent" in ruleData.fields && ruleData.fields["threshold_percent"].JNum? ==>
            d["threshold_percent"].n == Clamp(0.0, 100.0, ruleData.fields["threshold_percent"].n))
      && (ruleData.JObject? && "confidence_score" in ruleData.fields && ruleData.fields["confidence_score"].JNum? ==>
            d["confidence_score"].n == Clamp(0.0, 1.0, ruleData.fields["confidence_score"].n))
      && d["sample_valid_values"].JArray? && d["sample_invalid_values"].JArray?
      && (forall k :: 0 <= k < |d["sample_valid_values"].items| ==> d["sample_valid_values"].items[k].JStr?)
      && (forall k :: 0 <= k < |d["sample_invalid_values"].items| ==> d["sample_invalid_values"].items[k].JStr?)
  {
    var id := RuleIdOf(ruleData.fields, attr, index).value;
    CompletedShape(ruleData.fields, attr, id);
    assert Defaults(attr)[8].0 == "threshold_percent" && Defaults(attr)[10].0 == "confidence_score";
  }

  /** A threshold or a confidence proposed as a string is replaced by its parse, or by the
      default 5.0 or 0.8 when it does not parse, clamped into its range. */
  lemma NormalizedNumberStrings(ruleData: Json, attr: string, index: nat, show: Json -> string)
    requires Normalized(ruleData, attr, index, show).Success?
    ensures var d := Normalized(ruleData, attr, index, show).value;
      ruleData.JObject? && "threshold_percent" in ruleData.fields && ruleData.fields["threshold_percent"].JStr? ==>
        d["threshold_percent"] == JNum(Clamp(0.0, 100.0, ParseDecimal(ruleData.fields["threshold_percent"].s).GetOr(5.0)))
    ensures var d := Normalized(ruleData, attr, index, show).value;
      ruleData.JObject? && "confidence_score" in ruleData.fields && ruleData.fields["confidence_score"].JStr? ==>
        d["confidence_score"] == JNum(Clamp(0.0, 1.0, ParseDecimal(ruleData.fields["confidence_score"].s).GetOr(0.8)))
  {
    var id := RuleIdOf(ruleData.fields, attr, index).value;
    CompletedShape(ruleData.fields, attr, id);
    assert Defaults(attr)[8].0 == "threshold_percent" && Defaults(attr)[10].0 == "confidence_score";
  }

  /** A normalised rule becomes a `DQRule` exactly when its string fields are strings: the
      normalisation settles everything else the model layer checks. */
  lemma NormalizedParses(ruleData: Json, attr: string, index: nat, show: Json -> string)
    requires Normalized(ruleData, attr, index, show).Success?
    ensures var d := Normalized(ruleData, attr, index, show).value;
      RuleFromDict(d).Success? <==> forall key :: key in StrKeys ==> key in d && d[key].JStr?
  {
    var d := Normalized(ruleData, attr, index, show).value;
    NormalizedId(ruleData, attr, index, show);
    NormalizedNumbers(ruleData, attr, index, show);
    if forall key :: key in StrKeys ==> key in d && d[key].JStr? {
      assert FloatField(d, "threshold_percent") == Some(d["threshold_percent"].n);
      assert FloatField(d, "confidence_score") == Some(d["confidence_score"].n);
      assert StrListField(d, "sample_valid_values").Some?;
      assert StrListField(d, "sample_invalid_values").Some?;
      RuleFromDictSucceeds(d);
    } else {
      var key :| key in StrKeys && !(key in d && d[key].JStr?);
      assert StrField(d, key).None?;
    }
  }

  /** One proposed rule: normalised, then built as a `DQRule`; either step may raise. */
  function ParsedRule(ruleData: Json, attr: string, index: nat, show: Json -> string): (r: Result<DQRule>)
    ensures r.Success? ==> r.value.Valid()
  {
    match Normalized(ruleData, attr, index, show)
    case Failure(e) => Failure(e)
    case Success(d) => RuleFromDict(d)
  }

  // ---------------------------------------------------------------------------------------
  // A reply

  /** `re.search(r'\[[\s\S]*\]', content)`: from the first `[` to the last `]` after it. */
  function JsonSpan(content: string): (r: Option<string>)
    ensures r.Some? ==> |r.value| >= 2 && r.value[0] == '[' && r.value[|r.value| - 1] == ']'
    ensures r.Some? ==> IsInfix(r.value, content)
    ensures '[' !in content ==> r.None?
  {
    match IndexOf(content, "[")
    case None =>
      assert forall k :: 0 <= k < |content| ==> content[k] != '[' by {
        forall k | 0 <= k < |content| ensures content[k] != '[' {
          assert !OccursAt(content, "[", k);
          assert content[k..k + 1] == [content[k]];
        }
      }
      None
    case Some(i) =>
      assert content[i..i + 1] == "[";
      match LastIndexOf(content, ']')
      case None => None
      case Some(j) =>
        if j > i then
          assert OccursAt(content, content[i..j + 1], i);
          Some(content[i..j + 1])
        else None
  }

  /** The rule parsed from the item at `index`, or none when parsing it raises. */
  function ParsedOne(item: Json, index: nat, attr: string, show: Json -> string): (rules: seq<DQRule>)
    ensures |rules| <= 1
    ensures forall k :: 0 <= k < |rules| ==> rules[k].Valid()
  {
    var rule := ParsedRule(item, attr, index, show);
    if rule.Success? then [rule.value] else []
  }

  /** `ParsedOne` on a position and item pair. */
  function ParsedAt(attr: string, show: Json -> string): ((nat, Json)) -> seq<DQRule> {
    (p: (nat, Json)) => ParsedOne(p.1, p.0, attr, show)
  }

  /** The rules parsed from `items`, the first of which sits at position `start` of the
      decoded array; a rule that raises is left out and the others keep their order. */
  function ParsedFrom(items: seq<Json>, start: nat, attr: string, show: Json -> string): (rules: seq<DQRule>)
    ensures |rules| <= |items|
    ensures forall k :: 0 <= k < |rules| ==> rules[k].Valid()
  {
    var pairs := Indexed(items, start);
    FlatMapAtMostOne(ParsedAt(attr, show), pairs);
    FlatMapAll(ParsedAt(attr, show), pairs, (r: DQRule) => r.Valid());
    FlatMap(ParsedAt(attr, show), pairs)
  }

  /** Rules are parsed independently: the rules of a concatenation are the rules of each
      part, in order, each part numbered from where it starts. */
  lemma ParsedFromAppend(a: seq<Json>, b: seq<Json>, start: nat, attr: string, show: Json -> string)
    ensures ParsedFrom(a + b, start, attr, show) == ParsedFrom(a, start, attr, show) + ParsedFrom(b, start + |a|, attr, show)
  {
    IndexedAppend(a, b, start);
    FlatMapAppend(ParsedAt(attr, show), Indexed(a, start), Indexed(b, start + |a|));
  }

  /** `_parse_rules_from_response`: no span or no decodable array gives no rules. */
  function RulesFromResponse(oracles: Oracles, content: string, attr: string): (rules: seq<DQRule>)
    ensures JsonSpan(content).None? ==> rules == []
    ensures forall k :: 0 <= k < |rules| ==> rules[k].Valid()
  {
    match JsonSpan(content)
    case None => []
    case Some(span) =>
      match oracles.decode(span)
      case None => []
      case Some(items) => ParsedFrom(items, 0, attr, oracles.show)
  }

  /** The loop of `_parse_rules_from_response` over the decoded array. */
  method ParseRulesFromResponse(oracles: Oracles, content: string, attr: string) returns (rules: seq<DQRule>)
    ensures rules == RulesFromResponse(oracles, content, attr)
  {
    var span := JsonSpan(content);
    if span.None? {
      return [];
    }
    var decoded := oracles.decode(span.value);
    if decoded.None? {
      return [];
    }
    var items := decoded.value;
    rules := [];
    for i := 0 to |items|
      invariant rules == ParsedFrom(items[..i], 0, attr, oracles.show)
    {
      FlatMapIndexedStep(ParsedAt(attr, oracles.show), items, i);
      var rule := ParsedRule(items[i], attr, i, oracles.show);
      if rule.Success? {
        rules := rules + [rule.value];
      }
    }
    assert items[..|items|] == items;
  }

  /** The rules the language model's reply to a prompt yields; a call that raises gives
      none. */
  function RulesForFacts(oracles: Oracles, facts: PromptFacts): (rules: seq<DQRule>)
    ensures oracles.propose(facts).None? ==> rules == []
    ensures forall k :: 0 <= k < |rules| ==> rules[k].Valid()
  {
    match oracles.propose(facts)
    case None => []
    case Some(content) => RulesFromResponse(oracles, content, facts.attributeName)
  }

  /** `derive_rules_for_attribute`. */
  function RulesForAttribute(oracles: Oracles, analysis: Analysis, context: DatasetContext): seq<DQRule> {
    RulesForFacts(oracles, FactsOf(analysis, context))
  }

  /** The rules of every analysis, concatenated in the analyses' order. */
  function BatchRules(oracles: Oracles, analyses: seq<Analysis>, context: DatasetContext): seq<DQRule> {
    FlatMap(a => RulesForAttribute(oracles, a, context), analyses)
  }

  /** A batch holds exactly the rules derived for each of its analyses, each satisfying the
      rule constraints, and the rules of a longer list of analyses extend those of a
      shorter one: each analysis contributes independently of the others. */
  lemma BatchRulesShape(oracles: Oracles, analyses: seq<Analysis>, more: seq<Analysis>, context: DatasetContext)
    ensures forall rule :: rule in BatchRules(oracles, analyses, context) <==>
      exists i :: 0 <= i < |analyses| && rule in RulesForAttribute(oracles, analyses[i], context)
    ensures forall rule :: rule in BatchRules(oracles, analyses, context) ==> rule.Valid()
    ensures BatchRules(oracles, analyses + more, context) ==
      BatchRules(oracles, analyses, context) + BatchRules(oracles, more, context)
  {
    forall rule ensures rule in BatchRules(oracles, analyses, context) <==>
      exists i :: 0 <= i < |analyses| && rule in RulesForAttribute(oracles, analyses[i], context)
    {
      FlatMapMembers(a => RulesForAttribute(oracles, a, context), analyses, rule);
    }
    FlatMapAppend(a => RulesForAttribute(oracles, a, context), analyses, more);
  }

  /** `derive_rules_batch`. */
  method DeriveRulesBatch(oracles: Oracles, analyses: seq<Analysis>, context: DatasetContext)
    returns (allRules: seq<DQRule>)
    ensures allRules == BatchRules(oracles, analyses, context)
  {
    allRules := [];
    for i := 0 to |analyses|
      invariant allRules == BatchRules(oracles, analyses[..i], context)
    {
      assert analyses[..i + 1][..i] == analyses[..i];
      var rules := RulesForAttribute(oracles, analyses[i], context);
      allRules := allRules + rules;
    }
    assert analyses[..|analyses|] == analyses;
  }

  // ---------------------------------------------------------------------------------------
  // Expression templates

  /** The rule types that have a validation template. */
  const TemplateTypes: set<string> := {"NOT_NULL", "NOT_EMPTY", "VALUE_SET", "RANGE", "PRIMARY_KEY", "FORMAT_PATTERN"}

  /** `generate_sql_expression`: a query over `table` for the six known types, with the
      attribute double-quoted; the rule's own SQL otherwise. */
  function GenerateSqlExpression(rule: DQRule, table: string): (r: string)
    ensures rule.ruleType !in TemplateTypes ==> r == rule.ruleExpressionSql
    ensures rule.ruleType in TemplateTypes ==>
      StartsWith(r, "SELECT ") && IsInfix("\"" + rule.attributeName + "\"", r) && IsInfix(" FROM " + table + " ", r)
  {
    var a := "\"" + rule.attributeName + "\"";
    var from := " FROM " + table + " ";
    if rule.ruleType == "NOT_NULL" then
      SelectFrom("*", from, "WHERE ", a, " IS NULL")
    else if rule.ruleType == "NOT_EMPTY" then
      SelectFrom("*", from, "WHERE ", a, " IS NULL OR TRIM(CAST(" + a + " AS VARCHAR)) = ''")
    else if rule.ruleType == "VALUE_SET" then
      SelectFrom("*", from, "WHERE ", a, " NOT IN ({valid_values}) AND " + a + " IS NOT NULL")
    else if rule.ruleType == "RANGE" then
      SelectFrom("*", from, "WHERE CAST(", a, " AS NUMERIC) < {min} OR CAST(" + a + " AS NUMERIC) > {max}")
    else if rule.ruleType == "PRIMARY_KEY" then
      SelectFrom(a + ", COUNT(*)", from, "GROUP BY ", a, " HAVING COUNT(*) > 1")
    else if rule.ruleType == "FORMAT_PATTERN" then
      SelectFrom("*", from, "WHERE ", a, " NOT REGEXP '{pattern}'")
    else rule.ruleExpressionSql
  }

  /** A `SELECT cols` query: `from` and the quoted attribute `a` both occur in it. */
  function SelectFrom(cols: string, from: string, mid: string, a: string, tail: string): (r: string)
    ensures r == "SELECT " + cols + from + mid + a + tail
    ensures StartsWith(r, "SELECT ") && IsInfix(from, r) && IsInfix(a, r)
  {
    var r := Occurs3("SELECT " + cols, from, mid, a, tail);
    assert StartsWith(r, "SELECT ") by {
      assert r[..|"SELECT "|] == ("SELECT " + cols)[..|"SELECT "|];
    }
    r
  }

  /** `head + from + mid + a + tail`, with where `from` and `a` occur in it. */
  function Occurs3(head: string, from: string, mid: string, a: string, tail: string): (r: string)
    ensures r == head + from + mid + a + tail
    ensures StartsWith(r, head)
    ensures OccursAt(r, from, |head|) && OccursAt(r, a, |head| + |from| + |mid|)
  {
    var r := head + from + mid + a + tail;
    assert r[..|head|] == head;
    assert r[|head|..|head| + |from|] == from;
    assert r[|head| + |from| + |mid|..|head| + |from| + |mid| + |a|] == a;
    r
  }

  /** `generate_python_expression`: a pandas selection of the failing rows for the six known
      types, with the attribute single-quoted; the rule's own pandas expression otherwise. */
  function GeneratePythonExpression(rule: DQRule): (r: string)
    ensures rule.ruleType !in TemplateTypes ==> r == rule.ruleExpressionPython
    ensures rule.ruleType in TemplateTypes ==>
      StartsWith(r, "df[") && IsInfix("['" + rule.attributeName + "']", r)
  {
    var a := "['" + rule.attributeName + "']";
    if rule.ruleType == "NOT_NULL" then
      Occurs3("df[df", "", "", a, ".isna()]")
    else if rule.ruleType == "NOT_EMPTY" then
      Occurs3("df[df", "", "", a, ".isna() | (df" + a + ".astype(str).str.strip() == '')]")
    else if rule.ruleType == "VALUE_SET" then
      Occurs3("df[~df", "", "", a, ".isin({valid_values}) & df" + a + ".notna()]")
    else if rule.ruleType == "RANGE" then
      Occurs3("df[(pd.to_numeric(df", "", "", a,
        ", errors='coerce') < {min}) | (pd.to_numeric(df" + a + ", errors='coerce') > {max})]")
    else if rule.ruleType == "PRIMARY_KEY" then
      Occurs3("df[df.duplicated(subset=", "", "", a, ", keep=False)]")
    else if rule.ruleType == "FORMAT_PATTERN" then
      Occurs3("df[~df", "", "", a, ".astype(str).str.match(r'{pattern}', na=False)]")
    else rule.ruleExpressionPython
  }

  /** The SQL a proposed rule gets by default is the not-null template over `products`. */
  lemma DefaultSqlIsNotNullTemplate(rule: DQRule)
    requires rule.ruleType == "NOT_NULL"
    ensures DefaultSql(rule.attributeName) == GenerateSqlExpression(rule, "products")
  {
    var a := "\"" + rule.attributeName + "\"";
    assert GenerateSqlExpression(rule, "products") == SelectFrom("*", " FROM " + "products" + " ", "WHERE ", a, " IS NULL");
    SelectNotNull(a);
    NotNullQuoted(rule.attributeName);
  }

  lemma SelectNotNull(a: string)
    ensures SelectFrom("*", " FROM " + "products" + " ", "WHERE ", a, " IS NULL")
         == "SELECT * FROM products WHERE " + a + " IS NULL"
  {
    assert "SELECT " + "*" + (" FROM " + "products" + " ") + "WHERE " == "SELECT * FROM products WHERE ";
  }

  lemma NotNullQuoted(attr: string)
    ensures "SELECT * FROM products WHERE " + ("\"" + attr + "\"") + " IS NULL" == DefaultSql(attr)
  {
    assert "SELECT * FROM products WHERE " + "\"" == "SELECT * FROM products WHERE \"";
    assert "\"" + " IS NULL" == "\" IS NULL";
  }

  /** The pandas expression a proposed rule gets by default is the not-null template. */
  lemma DefaultPythonIsNotNullTemplate(rule: DQRule)
    requires rule.ruleType == "NOT_NULL"
    ensures DefaultPython(rule.attributeName) == GeneratePythonExpression(rule)
  {
    var a := "['" + rule.attributeName + "']";
    assert GeneratePythonExpression(rule) == Occurs3("df[df", "", "", a, ".isna()]");
    IsNaQuoted(rule.attributeName);
  }

  lemma IsNaQuoted(attr: string)
    ensures Occurs3("df[df", "", "", "['" + attr + "']", ".isna()]") == DefaultPython(attr)
  {
    assert "df[df" + "" + "" + "['" == "df[df['";
    assert "']" + ".isna()]" == "'].isna()]";
  }
}
