/**
 * The workflow nodes. Each steps the shared state record: selection queues the attributes
 * and starts the iteration, derivation appends the rules proposed for the current
 * attribute, validation appends the results of that attribute's rules and moves to the
 * next attribute, and refinement keeps the first rule per id with raised thresholds.
 */
module Nodes {
  import opened Wrappers
  import opened Numbers
  import opened Lists
  import opened SampleData
  import opened DqRule
  import opened ProfilingStats
  import opened AgentState
  import opened DataProfiler
  import AttributeConfig
  import RuleValidation
  import RuleDerivation

  /** Every rule satisfies the rule constraints, as every `DQRule` instance does. */
  predicate AllValid(rules: seq<DQRule>) {
    forall k :: 0 <= k < |rules| ==> rules[k].Valid()
  }

  // ---------------------------------------------------------------------------------------
  // select_priority_attributes_node

  /** The queue: the listed priority attributes that have a selectable profile, in listed
      order; when none has, the first `DEFAULT_ATTRIBUTE_COUNT` selectable attributes in
      profiling order. */
  function SelectedAttributes(t: ProfileTable, priority: seq<string>): seq<string> {
    var listed := SelectableAmong(priority, t);
    if listed != [] then listed else DynamicPriority(t, AttributeConfig.DefaultAttributeCount)
  }

  /** The queue keeps the listed attributes that are present, not empty and not fully
      missing, in listed order; failing that it is a prefix of at most fifteen selectable
      attributes in profiling order; and it is empty only when no attribute is selectable. */
  lemma SelectedAttributesShape(t: ProfileTable, priority: seq<string>)
    ensures var q := SelectedAttributes(t, priority);
      SelectableAmong(priority, t) != [] ==>
        && IsSubsequence(q, priority)
        && forall n :: n in q <==> n in priority && HasSelectableProfile(t, n)
    ensures var q := SelectedAttributes(t, priority);
      SelectableAmong(priority, t) == [] ==>
        && IsSubsequence(q, Names(t))
        && |q| <= AttributeConfig.DefaultAttributeCount
        && (forall n :: n in q ==> exists k :: 0 <= k < |t| && t[k].attributeName == n && Selectable(t[k]))
        && (|SelectableNames(t)| <= AttributeConfig.DefaultAttributeCount ==> q == SelectableNames(t))
    ensures SelectedAttributes(t, priority) == [] <==> SelectableNames(t) == []
  {
    var listed := SelectableAmong(priority, t);
    SelectableAmongShape(priority, t);
    DynamicPriorityShape(t, AttributeConfig.DefaultAttributeCount);
    SelectableNamesShape(t);
    if listed != [] {
      var n := listed[0];
      assert n in listed;
      var p := Lookup(t, n).value;
      var k :| 0 <= k < |t| && t[k] == p;
      assert t[k].attributeName in SelectableNames(t);
    } else {
      assert SelectedAttributes(t, priority) == Take(SelectableNames(t), 15);
    }
  }

  /** The first loop of the node: the listed attributes with a selectable profile. */
  method KeepListed(priority: seq<string>, t: ProfileTable) returns (validated: seq<string>)
    ensures validated == SelectableAmong(priority, t)
  {
    validated := [];
    for i := 0 to |priority|
      invariant validated == SelectableAmong(priority[..i], t)
    {
      assert priority[..i + 1][..i] == priority[..i];
      var attr := priority[i];
      var stats := Lookup(t, attr);
      if stats.Some? {
        if stats.value.dataType == "Empty" {
          continue;
        }
        if stats.value.missingPercentage >= 100.0 {
          continue;
        }
        validated := validated + [attr];
      }
    }
    assert priority[..|priority|] == priority;
  }

  /** The fallback loop: selectable attributes in profiling order, stopping once it holds
      `DEFAULT_ATTRIBUTE_COUNT`. */
  method FirstSelectable(t: ProfileTable) returns (validated: seq<string>)
    ensures validated == DynamicPriority(t, AttributeConfig.DefaultAttributeCount)
  {
    validated := [];
    var i := 0;
    while i < |t|
      invariant 0 <= i <= |t|
      invariant validated == SelectableNames(t[..i])
      invariant |validated| < AttributeConfig.DefaultAttributeCount
    {
      assert t[..i + 1][..i] == t[..i];
      var p := t[i];
      i := i + 1;
      if p.dataType == "Empty" || p.missingPercentage >= 100.0 {
        continue;
      }
      validated := validated + [p.attributeName];
      if |validated| >= AttributeConfig.DefaultAttributeCount {
        SelectableNamesAppend(t[..i], t[i..]);
        assert t[..i] + t[i..] == t;
        return;
      }
    }
    assert t[..i] == t;
  }

  /** `select_priority_attributes_node`: the queue, its head as the current attribute, and
      the iteration count back at zero. */
  method SelectPriorityAttributesNode(st: WorkflowState)
    modifies st
    ensures var s := old(st.Value());
      var queue := SelectedAttributes(s.profilingStats, s.datasetContext.priorityAttributes);
      st.Value() == s.(attributesToProcess := queue,
                       currentAttribute := if queue == [] then None else Some(queue[0]),
                       iterationCount := 0)
  {
    var validated := KeepListed(st.datasetContext.priorityAttributes, st.profilingStats);
    if validated == [] {
      validated := FirstSelectable(st.profilingStats);
    }
    st.attributesToProcess := validated;
    st.currentAttribute := if validated == [] then None else Some(validated[0]);
    st.iterationCount := 0;
  }

  // ---------------------------------------------------------------------------------------
  // derive_rules_node

  /** The dataset context once the node has filled in a missing name and record count. */
  function FilledContext(context: DatasetContext, totalRecords: int): (c: DatasetContext)
    ensures c.datasetName != ""
  {
    context.(datasetName := if context.datasetName == "" then "Product_Data" else context.datasetName,
             totalRecords := if context.totalRecords == 0 then totalRecords else context.totalRecords)
  }

  /** The analysis the node assembles by hand from the attribute's profile. */
  function NodeFacts(attr: string, p: ProfilingResult, context: DatasetContext): RuleDerivation.PromptFacts {
    RuleDerivation.PromptFacts(attr, p.dataType, p.missingPercentage, p.cardinality, p.range,
      Take(p.topValues, 10), RecommendRuleTypes(p), context.datasetName, context.domain, context.totalRecords)
  }

  /** The node's hand-made analysis tells the language model what `analyze_attribute` would
      tell it about the same attribute. */
  lemma NodeFactsAgree(t: ProfileTable, attr: string, context: DatasetContext)
    requires Lookup(t, attr).Some?
    ensures NodeFacts(attr, Lookup(t, attr).value, context) ==
      RuleDerivation.FactsOf(AnalyzeAttribute(t, attr).value, context)
  {
    var p := Lookup(t, attr).value;
    assert Take(Take(p.topValues, 10), 10) == Take(p.topValues, 10);
  }

  /** What `derive_rules_node` makes of the state. With no current attribute, or none with
      a profile, it records an error; otherwise it fills in the dataset context and either
      records that the derivation agent could not be created or appends the rules derived
      for the attribute. */
  function DeriveStep(s: StateValue, agent: Result<RuleDerivation.Oracles>): StateValue {
    if s.currentAttribute.None? || s.currentAttribute.value == "" then
      s.(errors := s.errors + ["No attribute to process"])
    else
      var attr := s.currentAttribute.value;
      var stats := Lookup(s.profilingStats, attr);
      if stats.None? then s.(errors := s.errors + ["No stats for " + attr])
      else DeriveWithProfile(s, attr, stats.value, agent)
  }

  /** The derivation step once the attribute's profile `p` is found. */
  function DeriveWithProfile(s: StateValue, attr: string, p: ProfilingResult, agent: Result<RuleDerivation.Oracles>): StateValue {
    var context := FilledContext(s.datasetContext, s.totalRecords);
    match agent
    case Failure(e) =>
      s.(datasetContext := context, errors := s.errors + ["Error deriving rules for " + attr + ": " + e])
    case Success(oracles) =>
      s.(datasetContext := context,
         candidateRules := s.candidateRules + RuleDerivation.RulesForFacts(oracles, NodeFacts(attr, p, context)))
  }

  /** The derivation step either appends rules and no error, or exactly one error and no
      rule; the error case is exactly a missing attribute, a missing profile or a missing
      agent. The rules it appends are valid, and it neither moves the iteration nor touches
      the queue, the results or the refined rules. */
  lemma DeriveStepShape(s: StateValue, agent: Result<RuleDerivation.Oracles>)
    ensures var n := DeriveStep(s, agent);
      var failed := s.currentAttribute.None? || s.currentAttribute.value == "" ||
        Lookup(s.profilingStats, s.currentAttribute.value).None? || agent.Failure?;
      && (!failed ==> n.errors == s.errors && s.candidateRules <= n.candidateRules)
      && (failed ==> |n.errors| == |s.errors| + 1 && s.errors <= n.errors && n.candidateRules == s.candidateRules)
    ensures var n := DeriveStep(s, agent);
      && (AllValid(s.candidateRules) ==> AllValid(n.candidateRules))
      && n.currentAttribute == s.currentAttribute && n.iterationCount == s.iterationCount
      && n.attributesToProcess == s.attributesToProcess
      && n.validationResults == s.validationResults && n.validatedRules == s.validatedRules
  {
    var n := DeriveStep(s, agent);
    if s.currentAttribute.Some? && s.currentAttribute.value != "" {
      var attr := s.currentAttribute.value;
      var stats := Lookup(s.profilingStats, attr);
      if stats.Some? && agent.Success? {
        var context := FilledContext(s.datasetContext, s.totalRecords);
        var rules := RuleDerivation.RulesForFacts(agent.value, NodeFacts(attr, stats.value, context));
        assert n.candidateRules == s.candidateRules + rules;
        if AllValid(s.candidateRules) {
          forall k | 0 <= k < |n.candidateRules| ensures n.candidateRules[k].Valid() {
            if k >= |s.candidateRules| {
              assert n.candidateRules[k] == rules[k - |s.candidateRules|];
            }
          }
        }
      }
    }
  }

  /** `derive_rules_node` on the state object. */
  method DeriveRulesNode(st: WorkflowState, agent: Result<RuleDerivation.Oracles>)
    modifies st
    ensures st.Value() == DeriveStep(old(st.Value()), agent)
  {
    var current := st.currentAttribute;
    if current.None? || current.value == "" {
      st.errors := st.errors + ["No attribute to process"];
      return;
    }
    var attr := current.value;
    var stats := Lookup(st.profilingStats, attr);
    if stats.None? {
      st.errors := st.errors + ["No stats for " + attr];
      return;
    }
    DeriveForProfile(st, attr, stats.value, agent);
  }

  /** The second half of `derive_rules_node`: fill in the dataset context, then derive. */
  method DeriveForProfile(st: WorkflowState, attr: string, p: ProfilingResult, agent: Result<RuleDerivation.Oracles>)
    modifies st
    ensures st.Value() == DeriveWithProfile(old(st.Value()), attr, p, agent)
  {
    FillContext(st);
    match agent
    case Failure(e) =>
      st.errors := st.errors + ["Error deriving rules for " + attr + ": " + e];
    case Success(oracles) =>
      st.candidateRules := st.candidateRules + RuleDerivation.RulesForFacts(oracles, NodeFacts(attr, p, st.datasetContext));
  }

  /** The node fills in a missing dataset name and record count. */
  method FillContext(st: WorkflowState)
    modifies st
    ensures st.Value() == old(st.Value()).(datasetContext := FilledContext(old(st.datasetContext), old(st.totalRecords)))
  {
    var context := st.datasetContext;
    if context.datasetName == "" {
      context := context.(datasetName := "Product_Data");
    }
    if context.totalRecords == 0 {
      context := context.(totalRecords := st.totalRecords);
    }
    st.datasetContext := context;
  }

  // ---------------------------------------------------------------------------------------
  // validate_rules_node

  /** `s.index(x)`, or -1 when `x` is not in `s`. */
  function FirstIndex(s: seq<string>, x: string): (i: int)
    ensures -1 <= i < |s|
    ensures i >= 0 ==> s[i] == x && forall j :: 0 <= j < i ==> s[j] != x
    ensures i == -1 ==> x !in s
  {
    if s == [] then -1
    else if s[0] == x then 0
    else
      var r := FirstIndex(s[1..], x);
      if r == -1 then -1 else r + 1
  }

  /** The attribute after `current` in the queue: the one after its first occurrence, or
      the head when `current` is missing, empty or not queued; none past the end. */
  function NextAttribute(attrs: seq<string>, current: Option<string>): Option<string> {
    var i := if current.Some? && current.value != "" then FirstIndex(attrs, current.value) else -1;
    if i + 1 < |attrs| then Some(attrs[i + 1]) else None
  }

  /** In a queue without repeats, the attribute after the one at `i` is the one at `i + 1`,
      and none after the last; with no current attribute the head comes next. */
  lemma NextAttributeAdvances(attrs: seq<string>, i: nat)
    requires Distinct(attrs) && i < |attrs| && attrs[i] != ""
    ensures NextAttribute(attrs, Some(attrs[i])) == if i + 1 < |attrs| then Some(attrs[i + 1]) else None
    ensures NextAttribute(attrs, None) == if attrs == [] then None else Some(attrs[0])
  {
    var j := FirstIndex(attrs, attrs[i]);
    assert j == i;
  }

  /** The candidate rules for the current attribute, in order. */
  function RulesOf(rules: seq<DQRule>, current: Option<string>): seq<DQRule> {
    Filter(rules, BelongsTo(current))
  }

  /** `r.attribute_name == current_attr`. */
  function BelongsTo(current: Option<string>): DQRule -> bool {
    (r: DQRule) => current == Some(r.attributeName)
  }

  /** `validate_all_rules` over the sample frame, as a function. */
  function ResultsFor(interp: RuleValidation.Interp, sample: Frame, rules: seq<DQRule>): (results: seq<ValidationResult>)
    ensures |results| == |rules|
    ensures forall k :: 0 <= k < |rules| ==> results[k].ruleId == rules[k].ruleId
  {
    seq(|rules|, k requires 0 <= k < |rules| => RuleValidation.ValidateRule(interp, sample, rules[k]))
  }

  /** Only the current attribute's rules are validated, all of them, in candidate order:
      the rules validated are exactly the candidates whose attribute is the current one, and
      (`ResultsFor`) result `k` is that of rule `k`. */
  lemma RulesOfMembers(rules: seq<DQRule>, current: Option<string>)
    ensures IsSubsequence(RulesOf(rules, current), rules)
    ensures forall rule :: rule in RulesOf(rules, current) <==> rule in rules && Some(rule.attributeName) == current
  {
    FilterIsSubsequence(rules, BelongsTo(current));
    forall rule ensures rule in RulesOf(rules, current) <==> rule in rules && Some(rule.attributeName) == current {
      FilterMembers(rules, BelongsTo(current), rule);
    }
  }

  /** `validate_rules_node`: with sample rows it appends the results of the current
      attribute's rules to the earlier ones; with or without them it moves to the next
      attribute and counts one more iteration. */
  method ValidateRulesNode(st: WorkflowState, interp: RuleValidation.Interp)
    modifies st
    ensures var s := old(st.Value());
      var moved := s.(currentAttribute := NextAttribute(s.attributesToProcess, s.currentAttribute),
                      iterationCount := s.iterationCount + 1);
      && (s.sampleData == [] ==> st.Value() == moved)
      && (s.sampleData != [] ==>
            st.Value() == moved.(validationResults := s.validationResults +
              ResultsFor(interp, FrameOf(s.sampleData), RulesOf(s.candidateRules, s.currentAttribute))))
    ensures st.iterationCount == old(st.iterationCount) + 1
    ensures old(st.validationResults) <= st.validationResults
    ensures st.candidateRules == old(st.candidateRules) && st.errors == old(st.errors)
  {
    if st.sampleData != [] {
      AppendCurrentResults(st, interp);
    }
    st.currentAttribute := NextAttribute(st.attributesToProcess, st.currentAttribute);
    st.iterationCount := st.iterationCount + 1;
  }

  /** The validating half of `validate_rules_node`: the current attribute's results are
      appended to the earlier ones. */
  method AppendCurrentResults(st: WorkflowState, interp: RuleValidation.Interp)
    modifies st
    ensures st.Value() == old(st.Value()).(validationResults := old(st.validationResults) +
      ResultsFor(interp, FrameOf(old(st.sampleData)), RulesOf(old(st.candidateRules), old(st.currentAttribute))))
  {
    var sample := FrameOf(st.sampleData);
    var current := RulesOf(st.candidateRules, st.currentAttribute);
    var results := RuleValidation.ValidateAllRules(interp, sample, current);
    assert results == ResultsFor(interp, sample, current);
    st.validationResults := st.validationResults + results;
  }

  // ---------------------------------------------------------------------------------------
  // refine_rules_node

  /** The ids of `rules`. */
  function IdsOf(rules: seq<DQRule>): (ids: set<string>)
    ensures forall id :: id in ids <==> exists k :: 0 <= k < |rules| && rules[k].ruleId == id
  {
    set k | 0 <= k < |rules| :: rules[k].ruleId
  }

  lemma IdsOfSnoc(rules: seq<DQRule>, x: DQRule)
    ensures IdsOf(rules + [x]) == IdsOf(rules) + {x.ruleId}
  {
    var s := rules + [x];
    assert s[|rules|] == x;
    forall id ensures id in IdsOf(s) <==> id in IdsOf(rules) + {x.ruleId} {
      if id in IdsOf(rules) {
        var k :| 0 <= k < |rules| && rules[k].ruleId == id;
        assert s[k] == rules[k];
      }
      if id in IdsOf(s) && id != x.ruleId {
        var k :| 0 <= k < |s| && s[k].ruleId == id;
        assert k < |rules| && rules[k] == s[k];
      }
    }
  }

  /** The first rule of each id, in order. */
  function FirstById(rules: seq<DQRule>): (kept: seq<DQRule>)
    ensures |kept| <= |rules|
  {
    if rules == [] then []
    else
      var init := rules[..|rules| - 1];
      var last := rules[|rules| - 1];
      FirstById(init) + (if last.ruleId in IdsOf(init) then [] else [last])
  }

  /** No two rules share an id. */
  predicate DistinctIds(rules: seq<DQRule>) {
    forall i, j :: 0 <= i < j < |rules| ==> rules[i].ruleId != rules[j].ruleId
  }

  /** The rule at `i` is the first in `rules` with its id. */
  predicate FirstOfItsId(rules: seq<DQRule>, i: int)
    requires 0 <= i < |rules|
  {
    forall j :: 0 <= j < i ==> rules[j].ruleId != rules[i].ruleId
  }

  /** A rule first of its id among all but the last rule is first of its id among all. */
  lemma FirstOfItsIdInPrefix(rules: seq<DQRule>, i: nat)
    requires i < |rules| - 1 && FirstOfItsId(rules[..|rules| - 1], i)
    ensures FirstOfItsId(rules, i)
  {
    var init := rules[..|rules| - 1];
    forall j | 0 <= j < i ensures rules[j].ruleId != rules[i].ruleId {
      assert rules[j] == init[j] && rules[i] == init[i];
    }
  }

  /** The last rule is first of its id when no earlier rule has that id. */
  lemma FirstOfItsIdLast(rules: seq<DQRule>)
    requires rules != [] && rules[|rules| - 1].ruleId !in IdsOf(rules[..|rules| - 1])
    ensures FirstOfItsId(rules, |rules| - 1)
  {
    var init := rules[..|rules| - 1];
    forall j | 0 <= j < |rules| - 1 ensures rules[j].ruleId != rules[|rules| - 1].ruleId {
      assert rules[j] == init[j];
    }
  }

  /** Deduplication keeps an order-preserving subsequence of its input. */
  lemma {:induction false} FirstByIdSubsequence(rules: seq<DQRule>)
    ensures IsSubsequence(FirstById(rules), rules)
  {
    if rules == [] {
      SubsequenceRefl(rules);
    } else {
      var init := rules[..|rules| - 1];
      var last := rules[|rules| - 1];
      FirstByIdSubsequence(init);
      assert rules == init + [last];
      if last.ruleId in IdsOf(init) {
        assert FirstById(rules) == FirstById(init);
        SubsequenceExtendRight(FirstById(init), init, last);
      } else {
        assert FirstById(rules) == FirstById(init) + [last];
        SubsequenceExtend(FirstById(init), init, last);
      }
    }
  }

  /** Deduplication loses no id. */
  lemma {:induction false} FirstByIdIds(rules: seq<DQRule>)
    ensures IdsOf(FirstById(rules)) == IdsOf(rules)
  {
    if rules != [] {
      var init := rules[..|rules| - 1];
      var last := rules[|rules| - 1];
      FirstByIdIds(init);
      assert rules == init + [last];
      IdsOfSnoc(init, last);
      if last.ruleId !in IdsOf(init) {
        assert FirstById(rules) == FirstById(init) + [last];
        IdsOfSnoc(FirstById(init), last);
      } else {
        assert FirstById(rules) == FirstById(init);
      }
    }
  }

  /** Deduplication leaves no two rules with the same id. */
  lemma {:induction false} FirstByIdDistinct(rules: seq<DQRule>)
    ensures DistinctIds(FirstById(rules))
  {
    if rules != [] {
      var init := rules[..|rules| - 1];
      var last := rules[|rules| - 1];
      var kept := FirstById(init);
      FirstByIdDistinct(init);
      FirstByIdIds(init);
      if last.ruleId in IdsOf(init) {
        assert FirstById(rules) == kept;
      } else {
        assert FirstById(rules) == kept + [last];
        forall i, j | 0 <= i < j < |kept + [last]| ensures (kept + [last])[i].ruleId != (kept + [last])[j].ruleId {
          if j == |kept| {
            assert kept[i].ruleId in IdsOf(kept);
          }
        }
      }
    }
  }

  /** Each kept rule is the first rule in the input with its id. */
  lemma {:induction false} FirstByIdKeepsFirst(rules: seq<DQRule>)
    ensures forall k :: 0 <= k < |FirstById(rules)| ==>
      exists i :: 0 <= i < |rules| && rules[i] == FirstById(rules)[k] && FirstOfItsId(rules, i)
  {
    if rules != [] {
      var init := rules[..|rules| - 1];
      var last := rules[|rules| - 1];
      var kept := FirstById(init);
      FirstByIdKeepsFirst(init);
      if last.ruleId in IdsOf(init) {
        assert FirstById(rules) == kept;
      } else {
        assert FirstById(rules) == kept + [last];
      }
      forall k | 0 <= k < |FirstById(rules)|
        ensures exists i :: 0 <= i < |rules| && rules[i] == FirstById(rules)[k] && FirstOfItsId(rules, i)
      {
        if k < |kept| {
          assert FirstById(rules)[k] == kept[k];
          var i :| 0 <= i < |init| && init[i] == kept[k] && FirstOfItsId(init, i);
          FirstOfItsIdInPrefix(rules, i);
          assert rules[i] == FirstById(rules)[k];
        } else {
          assert FirstById(rules)[k] == last;
          FirstOfItsIdLast(rules);
          assert rules[|rules| - 1] == FirstById(rules)[k];
        }
      }
    } else {
      assert FirstById(rules) == [];
    }
  }

  /** Rules whose ids are already distinct are kept as they are. */
  lemma {:induction false} FirstByIdOfDistinct(rules: seq<DQRule>)
    requires DistinctIds(rules)
    ensures FirstById(rules) == rules
  {
    if rules != [] {
      var init := rules[..|rules| - 1];
      var last := rules[|rules| - 1];
      FirstByIdOfDistinct(init);
      forall k | 0 <= k < |init| ensures init[k].ruleId != last.ruleId {
        assert init[k] == rules[k];
      }
      assert last.ruleId !in IdsOf(init);
      assert init + [last] == rules;
    }
  }

  /** Deduplicating twice is deduplicating once. */
  lemma FirstByIdIdempotent(rules: seq<DQRule>)
    ensures FirstById(FirstById(rules)) == FirstById(rules)
  {
    FirstByIdDistinct(rules);
    FirstByIdOfDistinct(FirstById(rules));
  }

  /** `{r.rule_id: r for r in results}`: one result per id, a later one replacing an
      earlier one. */
  function ResultsById(results: seq<ValidationResult>): (m: map<string, ValidationResult>)
    ensures forall id :: id in m <==> exists k :: 0 <= k < |results| && results[k].ruleId == id
    ensures forall id :: id in m ==> m[id].ruleId == id && m[id] in results
  {
    if results == [] then map[]
    else
      var init := results[..|results| - 1];
      var last := results[|results| - 1];
      assert results == init + [last];
      ResultsById(init)[last.ruleId := last]
  }

  /** The result recorded for an id is the last result with that id. */
  lemma {:induction false} ResultsByIdLastWins(results: seq<ValidationResult>, k: nat)
    requires k < |results|
    requires forall j :: k < j < |results| ==> results[j].ruleId != results[k].ruleId
    ensures ResultsById(results)[results[k].ruleId] == results[k]
  {
    if k < |results| - 1 {
      var init := results[..|results| - 1];
      assert init[k] == results[k];
      ResultsByIdLastWins(init, k);
    }
  }

  /** The note the node appends to `derived_from`. */
  const AdjustedNote: string := " (threshold adjusted)"

  /** The threshold the node raises to when the failure rate exceeds one and a half times the
      threshold: the rate plus ten percent, rounded to one place, at most 100. */
  function RaisedThreshold(failRate: real): real {
    Min(RoundTo(failRate * 1.1, 1), 100.0)
  }

  lemma RaisedThresholdRange(failRate: real)
    ensures RaisedThreshold(failRate) <= 100.0
    ensures failRate >= 0.0 ==> 0.0 <= RaisedThreshold(failRate)
  {
    if failRate >= 0.0 {
      RuleValidation.RoundNonNegative(failRate * 1.1, 1);
    }
  }

  /** One kept rule after the node's threshold step: a rule whose result shows a failure
      rate above one and a half times its threshold gets the raised threshold and the note;
      every other rule stays as it is. */
  function NodeRefinedRule(rule: DQRule, results: map<string, ValidationResult>): (r: DQRule)
    ensures r == rule.(thresholdPercent := r.thresholdPercent, derivedFrom := r.derivedFrom)
    ensures rule.ruleId !in results ==> r == rule
    ensures rule.ruleId in results ==>
      (r != rule <==> 100.0 - results[rule.ruleId].passRate > rule.thresholdPercent * 1.5)
    ensures r != rule ==> r.derivedFrom == rule.derivedFrom + AdjustedNote && r.thresholdPercent <= 100.0
    ensures rule.Valid() ==> r.Valid()
  {
    if rule.ruleId in results then
      var failRate := 100.0 - results[rule.ruleId].passRate;
      if failRate > rule.thresholdPercent * 1.5 then
        var raised := rule.(thresholdPercent := RaisedThreshold(failRate),
                            derivedFrom := rule.derivedFrom + AdjustedNote);
        assert |raised.derivedFrom| > |rule.derivedFrom|;
        RaisedThresholdRange(failRate);
        raised
      else rule
    else rule
  }

  /** The node never lowers a threshold once the failure rate is at least half a percent
      (below that, rounding can take a tiny threshold to zero), and a raised threshold then
      admits the failure rate, up to the cap of 100. */
  lemma NodeRefineRaises(rule: DQRule, results: map<string, ValidationResult>)
    requires rule.Valid() && rule.ruleId in results
    requires 100.0 - results[rule.ruleId].passRate >= 0.5
    ensures NodeRefinedRule(rule, results).thresholdPercent >= rule.thresholdPercent
    ensures var f := 100.0 - results[rule.ruleId].passRate;
      NodeRefinedRule(rule, results) != rule ==> NodeRefinedRule(rule, results).thresholdPercent >= Min(f, 100.0)
  {
    var f := 100.0 - results[rule.ruleId].passRate;
    RoundToError(f * 1.1, 1);
    assert Pow10(1) == 10;
  }

  /** The node and the validation agent's `refine_rules` agree where both loosen: the same
      raised threshold. Where the failure rate is non-zero and under half a threshold above
      0.2, the agent tightens and the node keeps the rule. */
  lemma NodeAndAgentRefine(interp: RuleValidation.Interp, rule: DQRule, results: map<string, ValidationResult>)
    requires rule.Valid() && rule.ruleId in results
    ensures var f := 100.0 - results[rule.ruleId].passRate;
      f > rule.thresholdPercent * 1.5 ==>
        NodeRefinedRule(rule, results).thresholdPercent == RuleValidation.RefinedRule(interp, rule, results).thresholdPercent
    ensures var f := 100.0 - results[rule.ruleId].passRate;
      rule.thresholdPercent > 0.2 && 0.0 < f < rule.thresholdPercent * 0.5 ==>
        && NodeRefinedRule(rule, results) == rule
        && RuleValidation.RefinedRule(interp, rule, results).thresholdPercent < rule.thresholdPercent
  {
    var f := 100.0 - results[rule.ruleId].passRate;
    var agent := RuleValidation.RefinedRule(interp, rule, results);
    assert agent.thresholdPercent == RuleValidation.SuggestThreshold(rule.thresholdPercent, results[rule.ruleId].passRate);
    if rule.thresholdPercent > 0.2 && 0.0 < f < rule.thresholdPercent * 0.5 {
      RoundToError(f * 1.5, 1);
      assert Pow10(1) == 10;
    }
  }

  /** Rebuilding a valid rule from its dictionary with a new threshold in range and a note
      appended to its provenance gives the rule with those two fields replaced. */
  lemma RebuildWith(rule: DQRule, threshold: real, note: string)
    requires rule.Valid() && 0.0 <= threshold <= 100.0
    ensures RuleFromDict(ToDict(rule)["threshold_percent" := JsonValues.JNum(threshold)]
                                     ["derived_from" := JsonValues.JStr(rule.derivedFrom + note)])
      == Success(rule.(thresholdPercent := threshold, derivedFrom := rule.derivedFrom + note))
  {
    var r := rule.(thresholdPercent := threshold, derivedFrom := rule.derivedFrom + note);
    assert ToDict(r) == ToDict(rule)["threshold_percent" := JsonValues.JNum(threshold)]
                                    ["derived_from" := JsonValues.JStr(rule.derivedFrom + note)];
    ToDictRoundTrip(r);
  }

  /** `DQRule(**rule_dict)` of the adjusted dictionary the node builds is the adjusted
      rule: the rebuild never fails. */
  lemma NodeRebuildSucceeds(rule: DQRule, results: map<string, ValidationResult>)
    requires rule.Valid() && rule.ruleId in results
    requires 100.0 - results[rule.ruleId].passRate > rule.thresholdPercent * 1.5
    ensures RuleFromDict(ToDict(rule)["threshold_percent" := JsonValues.JNum(RaisedThreshold(100.0 - results[rule.ruleId].passRate))]
                                     ["derived_from" := JsonValues.JStr(rule.derivedFrom + AdjustedNote)])
      == Success(NodeRefinedRule(rule, results))
  {
    var t := RaisedThreshold(100.0 - results[rule.ruleId].passRate);
    RaisedThresholdRange(100.0 - results[rule.ruleId].passRate);
    RebuildWith(rule, t, AdjustedNote);
    NodeRefinedRaised(rule, results);
  }

  /** A rule failing more than one and a half times its threshold gets the raised threshold
      and the note. */
  lemma NodeRefinedRaised(rule: DQRule, results: map<string, ValidationResult>)
    requires rule.ruleId in results
    requires 100.0 - results[rule.ruleId].passRate > rule.thresholdPercent * 1.5
    ensures NodeRefinedRule(rule, results) ==
      rule.(thresholdPercent := RaisedThreshold(100.0 - results[rule.ruleId].passRate),
            derivedFrom := rule.derivedFrom + AdjustedNote)
  {
  }

  /** The node's output: the first rule of each id, each after the threshold step. */
  function RefinedNodeRules(rules: seq<DQRule>, results: map<string, ValidationResult>): seq<DQRule> {
    if rules == [] then []
    else
      var init := rules[..|rules| - 1];
      var last := rules[|rules| - 1];
      RefinedNodeRules(init, results) + (if last.ruleId in IdsOf(init) then [] else [NodeRefinedRule(last, results)])
  }

  /** The output is the deduplicated input with each rule put through the threshold step. */
  lemma {:induction false} RefinedIsDedupThenAdjust(rules: seq<DQRule>, results: map<string, ValidationResult>)
    ensures |RefinedNodeRules(rules, results)| == |FirstById(rules)|
    ensures forall k :: 0 <= k < |FirstById(rules)| ==>
      RefinedNodeRules(rules, results)[k] == NodeRefinedRule(FirstById(rules)[k], results)
  {
    if rules != [] {
      RefinedIsDedupThenAdjust(rules[..|rules| - 1], results);
    }
  }

  /** The node's output has distinct ids, exactly the ids of its input, each rule being the
      first of its id with at most its threshold and provenance changed; it is valid when
      the input is. */
  lemma RefinedNodeRulesShape(rules: seq<DQRule>, results: map<string, ValidationResult>)
    ensures var out := RefinedNodeRules(rules, results);
      && |out| <= |rules|
      && IdsOf(out) == IdsOf(rules)
      && DistinctIds(out)
      && (forall k :: 0 <= k < |out| ==>
            exists i :: 0 <= i < |rules| && FirstOfItsId(rules, i) &&
              out[k] == rules[i].(thresholdPercent := out[k].thresholdPercent, derivedFrom := out[k].derivedFrom))
      && (AllValid(rules) ==> AllValid(out))
  {
    var out := RefinedNodeRules(rules, results);
    var kept := FirstById(rules);
    RefinedIsDedupThenAdjust(rules, results);
    FirstByIdSubsequence(rules);
    FirstByIdIds(rules);
    FirstByIdDistinct(rules);
    FirstByIdKeepsFirst(rules);
    assert forall k :: 0 <= k < |out| ==> out[k].ruleId == kept[k].ruleId;
    assert IdsOf(out) == IdsOf(kept);
    forall k | 0 <= k < |out|
      ensures exists i :: (0 <= i < |rules| && FirstOfItsId(rules, i) &&
        out[k] == rules[i].(thresholdPercent := out[k].thresholdPercent, derivedFrom := out[k].derivedFrom))
    {
      var i :| 0 <= i < |rules| && rules[i] == kept[k] && FirstOfItsId(rules, i);
    }
    if AllValid(rules) {
      forall k | 0 <= k < |out| ensures out[k].Valid() {
        var i :| 0 <= i < |rules| && rules[i] == kept[k] && FirstOfItsId(rules, i);
      }
    }
  }

  /** Running the node's deduplication again on its output changes nothing. */
  lemma RefinedNodeRulesDedupIdempotent(rules: seq<DQRule>, results: map<string, ValidationResult>)
    ensures FirstById(RefinedNodeRules(rules, results)) == RefinedNodeRules(rules, results)
  {
    RefinedNodeRulesShape(rules, results);
    FirstByIdOfDistinct(RefinedNodeRules(rules, results));
  }

  /** The node's loop: skip a rule whose id was seen, otherwise keep it after the threshold
      step. */
  lemma RefinedNodeRulesSnoc(rules: seq<DQRule>, x: DQRule, results: map<string, ValidationResult>)
    ensures RefinedNodeRules(rules + [x], results) ==
      RefinedNodeRules(rules, results) + (if x.ruleId in IdsOf(rules) then [] else [NodeRefinedRule(x, results)])
  {
    assert (rules + [x])[..|rules|] == rules;
  }

  /** The loop of `refine_rules_node`, with its set of ids already seen. */
  method RefineRules(rules: seq<DQRule>, results: map<string, ValidationResult>) returns (refined: seq<DQRule>)
    ensures refined == RefinedNodeRules(rules, results)
  {
    refined := [];
    var seen: set<string> := {};
    for i := 0 to |rules|
      invariant seen == IdsOf(rules[..i])
      invariant refined == RefinedNodeRules(rules[..i], results)
    {
      assert rules[..i + 1] == rules[..i] + [rules[i]];
      IdsOfSnoc(rules[..i], rules[i]);
      RefinedNodeRulesSnoc(rules[..i], rules[i], results);
      var rule := rules[i];
      if rule.ruleId in seen {
        continue;
      }
      seen := seen + {rule.ruleId};
      refined := refined + [NodeRefinedRule(rule, results)];
    }
    assert rules[..|rules|] == rules;
  }

  /** `refine_rules_node`: the validated rules become the refined candidates; nothing else
      changes. */
  method RefineRulesNode(st: WorkflowState)
    modifies st
    ensures st.Value() == old(st.Value()).(validatedRules :=
      RefinedNodeRules(old(st.candidateRules), ResultsById(old(st.validationResults))))
  {
    var refined := RefineRules(st.candidateRules, ResultsById(st.validationResults));
    st.validatedRules := refined;
  }
}
