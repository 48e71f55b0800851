# Data-quality rule derivation: a verified model

The system derives data-quality (DQ) rules for a product dataset. It starts from the per-attribute
profiling statistics of the dataset and selects the attributes worth checking: those listed by a
taxonomy schema, or else the first non-empty ones. For each selected attribute, one at a time, it asks a
language model for candidate rules, normalises and validates the proposals into `DQRule` records, and
runs each rule over a sample of the data to measure its pass rate. When the loop ends, it keeps one rule per rule id and
raises the threshold of every rule that failed far more often than its threshold allowed.

This project models that core in Dafny:

- **Data.** The records the core works on, each as a datatype or a class:
  - `ProfilingResult` and `DatasetProfile`;
  - `DQRule` and `DQRuleSet`;
  - `ValidationResult`;
  - the shared workflow state;
  - the sample relation;
  - JSON values.
- **Profile reading.** Conversion of a raw profile into records, the counters and queries of the profile
  collection, parent-class detection and dataset naming.
- **Attribute selection.** The taxonomy allow-list (its cleaning, membership tests and matching report),
  and the profiler's attribute selections with their cache.
- **Recommendations.** The rule-type and severity recommendations for one attribute.
- **Derivation.** The handling of the language model's reply: the JSON array is cut out of the text, each
  proposal's fields are completed, converted and clamped, rule ids are generated, and the rule model's
  validation is applied.
- **Validation.** The validation of each built-in rule type over the sample relation, the pass-rate
  arithmetic, the threshold suggestions and agent-side refinement, and the regular-expression extraction
  of bounds, value sets, patterns and types, written out as scans.
- **Workflow.** The workflow nodes as state-changing methods on the shared state object, the routing
  guard, the graph's edge table, and a whole run of the loop.

The language model, `eval` of a pandas expression, `re.match`, `str()` of arbitrary values and the reading
of files are not computed. They are parameters, and every property holds for every behaviour they may
have.

In these places the model follows the code, whose behaviour may be unexpected:

- A RANGE rule reports no failure for a value that does not convert to a number. `pd.to_numeric` coerces
  it to NaN, and both comparisons with NaN are false.
- A rule validated over a relation with columns but no rows gets a pass rate of 0, not 100.
- The guard tests `current_attribute is None`, so an empty attribute name still counts as current. The
  nodes, however, treat an empty name as no attribute.
- Refinement in the workflow node deduplicates by rule id and uses its own threshold formula. It does not
  call the validation agent's `refine_rules`. Both are modelled, and `Nodes.NodeAndAgentRefine` compares
  them.
- The rule-type recommendation adds CASE_CONSISTENCY for a categorical attribute whose top values repeat
  ignoring case. The datatype mapping already gives every categorical attribute that type, so the test
  never changes the result (`DataProfiler.CaseTestChangesNothing`).

## Model

| member | source | states |
|---|---|---|
| AgentState.DefaultResult | src/models/agent_state.py:11-18 | a result built from a rule id alone has zero counts, a zero pass rate and no sample failures |
| AgentState.ResultToDict | src/models/agent_state.py:20-28 | the dictionary form of a result has exactly the five keys `rule_id`, `pass_count`, `fail_count`, `pass_rate`, `sample_failures` |
| AgentState.ResultDictRoundTrip | src/models/agent_state.py:20-28 | reading a result back from its dictionary form gives the same result |
| AgentState.MergeCandidates | src/models/agent_state.py:53 | the `add` reducer keeps the current rules as a prefix and the update as the suffix, nothing dropped or reordered |
| AgentState.MergeAssociative | src/models/agent_state.py:53 | merging two updates one after the other equals merging their concatenation |
| AgentState.WorkflowState.constructor | src/models/agent_state.py:71-98 | the initial state holds the three paths, empty lists, no current attribute, zero counts and the default dataset context |
| AttributeConfig.NonBlankParts | src/config/attribute_config.py:57 | every piece kept is non-empty and is one of the split pieces, stripped |
| AttributeConfig.NonBlankPartsSnoc | src/config/attribute_config.py:57 | one more split piece adds its stripped form at the end exactly when that is not blank, so every non-blank piece is kept, in order |
| AttributeConfig.NonBlankPartsLast | src/config/attribute_config.py:57-60 | the last piece kept (`parts[-1]`) is the last split piece that is not blank, stripped |
| AttributeConfig.ExtractParentClass | src/config/attribute_config.py:49-50 | an empty category value gives "Unknown" |
| AttributeConfig.ExtractParentClassLast | src/config/attribute_config.py:52-60 | when a delimiter is the first of the list that occurs in the value and leaves a non-blank piece, the parent class is the last non-blank piece under it, stripped, and holds no occurrence of that delimiter |
| AttributeConfig.ExtractParentClassWhole | src/config/attribute_config.py:55-63 | when no delimiter leaves a non-blank piece (in particular when none occurs), the parent class is the value stripped |
| AttributeConfig.ExtractParentClassLeaf | src/config/attribute_config.py:38-60 | for a `>>` hierarchy such as `A>>B>>Contactors`, the parent class is the trimmed text after the last `>>`, whatever precedes it |
| AttributeConfig.ExtractWithPiece | src/config/attribute_config.py:53-63 | whatever delimiter applies, the result is a contiguous piece of the value with no surrounding whitespace; it is empty only when the value is all whitespace |
| AttributeConfig.ExtractParentClassPiece | src/config/attribute_config.py:49-63 | the parent class of a non-empty value is a piece of that value, stripped of whitespace |
| AttributeConfig.Stem | src/config/attribute_config.py:80-83 | the stem of a path is no longer than the path (its value on a file name is given by `StemOfFile`) |
| AttributeConfig.StemOfFile | src/config/attribute_config.py:80-83 | the stem of `dir/name.ext` is `name`, whatever the directory |
| AttributeConfig.RemoveUuids | src/config/attribute_config.py:87 | removing UUIDs never lengthens the name |
| AttributeConfig.RemoveUuidsNone | src/config/attribute_config.py:87 | a name in which no UUID starts is left unchanged |
| AttributeConfig.RemoveOneUuid | src/config/attribute_config.py:87 | a single UUID between two texts that hold none is cut out and both texts are kept |
| AttributeConfig.SuffixAt | src/config/attribute_config.py:89 | a match exists exactly when an underscore and a suffix word (ignoring case) start there; it spans the underscore, the word, then all whitespace and after it all digits that follow, is at least four characters long and lies inside the name |
| AttributeConfig.WordAt | src/config/attribute_config.py:89 | gives the length of the first word of the alternation that matches (ignoring case), and 0 exactly when none matches |
| AttributeConfig.RemoveSuffixesNone | src/config/attribute_config.py:89 | a name in which no suffix starts is left unchanged |
| AttributeConfig.RemoveTrailingSuffix | src/config/attribute_config.py:89 | a name without underscores followed by `_export` (or another suffix word), whitespace and digits loses exactly that ending |
| AttributeConfig.Collapse | src/config/attribute_config.py:91 | after collapsing, the name has no whitespace and no doubled underscore, ends as the input ends (a separator becomes `_`), and is empty exactly when the input is |
| AttributeConfig.CollapseKeeps | src/config/attribute_config.py:91 | collapsing keeps every character that is neither an underscore nor whitespace, in order, and adds only underscores |
| AttributeConfig.DeriveDatasetNameFromPath | src/config/attribute_config.py:76-77 | an empty path gives "Dataset" |
| AttributeConfig.DatasetNameFromCleaned | src/config/attribute_config.py:91-96 | a cleaned stem of only underscores and whitespace gives "Product_Data"; any other gives a name whose characters other than `_` are exactly the other characters of the cleaned stem, in order |
| AttributeConfig.DatasetNameDropsUuid | src/config/attribute_config.py:76-96 | `dir/name_<uuid>.ext` gives `name` for a name of letters and digits |
| AttributeConfig.CollapsedInfix | src/config/attribute_config.py:91 | a piece of a collapsed name is itself collapsed |
| AttributeConfig.DatasetNameShape | src/config/attribute_config.py:76-96 | for every path the derived dataset name is non-empty, has no whitespace and no doubled underscore, and neither starts nor ends with `_` |
| AttributeConfig.StrippedShape | src/config/attribute_config.py:91-96 | stripping underscores from a collapsed name that is not all underscores gives a well-shaped name |
| AttributeConfig.DefaultNameShape | src/config/attribute_config.py:76-96 | the two fallback names "Dataset" and "Product_Data" are well-shaped |
| AttributeConfig.FirstIndicator | src/config/attribute_config.py:110-121 | the chosen indicator is the first of the list that is profiled, not typed Empty and not wholly missing; none is chosen only when no indicator qualifies |
| AttributeConfig.FirstClassNamed | src/config/attribute_config.py:124-133 | the fallback picks the first profile, in profile order, whose name contains "category", "class" or "type" and that it accepts, and picks none only when no profile qualifies |
| AttributeConfig.FindParentClassAttribute | src/config/attribute_config.py:99-135 | the result is a profiled name; a qualifying indicator always wins over the name fallback; with no qualifying indicator the result is exactly the fallback's; no result means no profile qualifies for the fallback |
| AttributeConfig.GetParentClassFromProfiling | src/config/attribute_config.py:138-172 | "Unknown" when no parent attribute is found, when its name is empty or when it has no top values; otherwise the parent class of its first top value |
| AttributeConfig.SeverityBandsTile | src/config/attribute_config.py:186-191 | the missing-percentage bands start at 0, end at 100, meet edge to edge, and put every percentage in [0, 100) in exactly one band |
| DataProfiler.SumTopCounts | src/agents/data_profiler_agent.py:127 | the loop returns the sum of the top-value counts (absent counts as 0) |
| DataProfiler.FirstCountingShape | src/agents/data_profiler_agent.py:125-132 | the profile the estimate uses is the first, in profile order, with under 1% missing, some top values and a positive cardinality; none is used only when no profile qualifies |
| DataProfiler.FirstCountingStep | src/agents/data_profiler_agent.py:125-132 | the search for the counting profile steps one profile at a time in order |
| DataProfiler.EstimateOf | src/agents/data_profiler_agent.py:129-132 | the estimate is never below the counted total; it equals the total for cardinality at least 100 and is the truncated total×100/cardinality below that |
| DataProfiler.ScaleUp | src/agents/data_profiler_agent.py:129-132 | dividing by the cardinality fraction equals scaling by 100/cardinality, which does not shrink the total |
| DataProfiler.SelectableNamesAppend | src/agents/data_profiler_agent.py:145-162 | the selectable names of two profile lists are those of each, concatenated |
| DataProfiler.SelectableNamesShape | src/agents/data_profiler_agent.py:145-162 | the selectable names are, in order, exactly the non-empty, not-all-missing profiles' names |
| DataProfiler.DynamicPriorityShape | src/agents/data_profiler_agent.py:135-162 | the dynamic selection is an ordered sub-list of the profiled names, holds only selectable ones, has at most the cap, and is all of them when they fit |
| DataProfiler.SelectableAmongAppend | src/agents/data_profiler_agent.py:212-221 | keeping the selectable names of two lists equals keeping those of each |
| DataProfiler.SelectableAmongShape | src/agents/data_profiler_agent.py:212-221 | the kept names are an ordered sub-list of the candidates, and a name is kept iff it is a candidate with a selectable profile |
| DataProfiler.CappedShape | src/agents/data_profiler_agent.py:212-221 | the cap keeps an ordered prefix, at most the limit when the limit is positive, and never empties a non-empty list |
| DataProfiler.KeepSelectable | src/agents/data_profiler_agent.py:212-221 | the filtering loop returns the capped list of matched names with a selectable profile |
| DataProfiler.TaxonomySelectionShape | src/agents/data_profiler_agent.py:176-235 | when some taxonomy match is selectable, the selection is a non-empty ordered sub-list of the matches, all allowed and selectable, within the limit; otherwise it is the dynamic selection |
| DataProfiler.FirstBand | src/agents/data_profiler_agent.py:338-342 | the band found contains the percentage, and no band is found only when none contains it |
| DataProfiler.BandNames | src/agents/data_profiler_agent.py:336-342 | a percentage strictly between 0 and 100 falls in Critical (<5), High (<20), Medium (<50) or else Low |
| DataProfiler.LowerTopTen | src/agents/data_profiler_agent.py:352-355 | the lower-cased texts of the first ten top values, at most ten, in order |
| DataProfiler.NotNullRuleShape | src/agents/data_profiler_agent.py:340 | `NOT_NULL:` followed by a band is recognised as a completeness rule carrying that band |
| DataProfiler.NotNullRuleChars | src/agents/data_profiler_agent.py:340 | a completeness rule starts with `N` and has `:` at position 8 |
| DataProfiler.FixedRulesPlain | src/config/attribute_config.py:176-183 | no datatype rule and none of PRIMARY_KEY, NEAR_DUPLICATE, CASE_CONSISTENCY is a completeness rule |
| DataProfiler.CompletenessRules | src/agents/data_profiler_agent.py:335-342 | a `NOT_NULL:<band>` is recommended iff 0 < missing < 100 and `<band>` is the first band containing the percentage |
| DataProfiler.UniquenessRules | src/agents/data_profiler_agent.py:344-349 | PRIMARY_KEY iff cardinality > 90; NEAR_DUPLICATE iff 80 < cardinality ≤ 90; nothing else |
| DataProfiler.ConsistencyRules | src/agents/data_profiler_agent.py:351-358 | CASE_CONSISTENCY iff the attribute is Categorical, has more than one top value and two of the first ten agree ignoring case |
| DataProfiler.RuleTypesFor | src/agents/data_profiler_agent.py:319-360 | the recommended set holds the datatype's rules, the completeness, uniqueness and consistency rules under their conditions, and nothing else; PRIMARY_KEY exactly above 90% cardinality or for ID attributes, CASE_CONSISTENCY exactly for categorical ones |
| DataProfiler.MappedKeyAndCase | src/config/attribute_config.py:176-183 | the mapping gives PRIMARY_KEY to ID only, CASE_CONSISTENCY to Categorical only, and NEAR_DUPLICATE to none |
| DataProfiler.CaseTestChangesNothing | src/agents/data_profiler_agent.py:349-358 | the case-duplicate test never changes the recommendation, since the categorical mapping already holds CASE_CONSISTENCY |
| DataProfiler.SeverityForOrder | src/agents/data_profiler_agent.py:362-382 | the severity is one of the four levels, Critical exactly for high cardinality, and more missing data never makes it more severe |
| DataProfiler.AnalyzeAttribute | src/agents/data_profiler_agent.py:384-419 | fails iff the attribute is not profiled; otherwise carries its type, missing percentage, cardinality, range, at most ten top values, emptiness, cardinality flag, recommendations, and a numeric range exactly for Numeric profiles that have one |
| DataProfiler.DataProfilerAgent.constructor | src/agents/data_profiler_agent.py:34-60 | the agent keeps the profile and attribute count, falls back to the default schema folder for a missing or empty path, and starts with no filter and no cache |
| DataProfiler.DataProfilerAgent.GetTotalRecords | src/agents/data_profiler_agent.py:113-133 | the total is 0 or, for some profile with counts, at least that profile's count sum |
| DataProfiler.DataProfilerAgent.GetDynamicPriorityAttributes | src/agents/data_profiler_agent.py:135-162 | returns the dynamic selection of the profile under the configured count |
| DataProfiler.DataProfilerAgent.GetTaxonomyFilter | src/agents/data_profiler_agent.py:164-174 | the filter is created once (fresh, for the agent's schema path), loaded, and reused afterwards; the cache is untouched |
| DataProfiler.DataProfilerAgent.GetTaxonomyFilteredAttributes | src/agents/data_profiler_agent.py:176-235 | a cached selection is returned unchanged; otherwise the taxonomy selection is computed, cached and returned |
| DqRule.StrField | src/models/dq_rule.py:65-127 | a string field is read iff the key is present and holds a string |
| DqRule.FloatField | src/models/dq_rule.py:104-119 | a float field reads the number stored; absent, null, list and object values give nothing |
| DqRule.Strings | src/models/dq_rule.py:120-127 | a list converts iff every item is a string, giving those strings in order |
| DqRule.StrListField | src/models/dq_rule.py:120-127 | an absent list field defaults to the empty list; a value that is not a list is rejected |
| DqRule.RuleFromDict | src/models/dq_rule.py:65-135 | a built rule satisfies the field constraints and carries all fourteen given fields (the ten strings, both converted numbers, both sample lists); a missing or mistyped field, a rule id without `DQ_`, or a threshold or confidence out of range is rejected |
| DqRule.FieldsFromDict | src/models/dq_rule.py:65-135 | the fields are read exactly when each is present with its type (strings, convertible numbers, lists of strings), and the record carries what was read |
| DqRule.RuleFromDictSucceeds | src/models/dq_rule.py:65-135 | all string fields present, a `DQ_` id, threshold in [0, 100], confidence in [0, 1] and list fields that are lists always build a rule |
| DqRule.JsonStrings | src/models/dq_rule.py:152-153 | the list of strings becomes the list of JSON strings, element by element |
| DqRule.ToDict | src/models/dq_rule.py:137-154 | every string field is written as a string, and the threshold and confidence as numbers |
| DqRule.StringsOfJsonStrings | src/models/dq_rule.py:152-153 | reading the written string lists back gives the original lists |
| DqRule.ToDictRoundTrip | src/models/dq_rule.py:65-154 | building a rule from the dictionary form of a valid rule gives the same rule |
| DqRule.RuleFromFields | src/models/dq_rule.py:65-135 | a dictionary whose fields equal those of a valid rule builds exactly that rule |
| DqRule.ToDictStrings | src/models/dq_rule.py:137-154 | every string field of the dictionary form reads back as the rule's field |
| DqRule.ToDictOthers | src/models/dq_rule.py:137-154 | the numeric and list fields of the dictionary form read back as the rule's fields |
| DqRule.SelectBy | src/models/dq_rule.py:193-203 | a query result is an ordered sub-list of the rules, and holds a rule iff it is in the set with the asked key |
| DqRule.SelectByLast | src/models/dq_rule.py:189-203 | adding a rule extends each query result by that rule exactly when it matches |
| DqRule.HitsDistinct | src/models/dq_rule.py:159-187 | a key occurs at most once in a list of distinct keys, and once exactly when it is in the list |
| DqRule.SumCountsLast | src/models/dq_rule.py:205-227 | adding a rule adds its hits to the summed counts |
| DqRule.SumCountsBound | src/models/dq_rule.py:205-227 | over distinct keys the per-key counts add up to at most the number of rules |
| DqRule.SumCountsEmpty | src/models/dq_rule.py:205-227 | no rules give zero counts |
| DqRule.SumConfidenceBounds | src/models/dq_rule.py:114-119 | the confidence sum of valid rules lies between 0 and the number of rules |
| DqRule.SummaryOf | src/models/dq_rule.py:205-227 | the summary counts all rules, counts each category and severity by its query, lists exactly the covered attributes, and averages 0 for no rules |
| DqRule.CategoriesDistinct | src/models/dq_rule.py:205-227 | the category and severity key lists have no repeats |
| DqRule.SummaryCountsBound | src/models/dq_rule.py:205-227 | the per-category and per-severity counts add up to at most the number of rules |
| DqRule.SummaryConfidenceBound | src/models/dq_rule.py:114-119 | the average confidence of valid rules lies in [0, 1] |
| DqRule.RulesToDicts | src/models/dq_rule.py:229-241 | the rule list becomes its dictionary forms, one per rule, in order |
| DqRule.DQRuleSet.constructor | src/models/dq_rule.py:157-187 | a new rule set holds its metadata, parent class "Unknown", no rules and no summary |
| DqRule.DQRuleSet.AddRule | src/models/dq_rule.py:189-191 | the rule is appended and nothing else changes |
| DqRule.DQRuleSet.GetRulesByCategory | src/models/dq_rule.py:193-195 | the rules of one category, in order, and no others |
| DqRule.DQRuleSet.GetRulesByAttribute | src/models/dq_rule.py:197-199 | the rules of one attribute, in order, and no others |
| DqRule.DQRuleSet.GetRulesBySeverity | src/models/dq_rule.py:201-203 | the rules of one severity, in order, and no others |
| DqRule.DQRuleSet.GenerateSummary | src/models/dq_rule.py:205-227 | the stored summary is the summary of the rules, and its counts agree with the three queries |
| DqRule.DQRuleSet.ToDict | src/models/dq_rule.py:229-241 | a summary is generated if none exists, and the document holds the metadata, the summary and every rule's dictionary form |
| Edges.ShouldProcessMoreAttributes | src/workflow/edges.py:8-33 | "continue" exactly when an attribute is current and fewer than `max_iterations` steps have run |
| Graph.NextNode | src/workflow/graph_builder.py:49-68 | after validation the guard picks derivation on "continue" and refinement on "complete"; every other node moves forward and never back to loading |
| Graph.Continues | src/workflow/edges.py:33 | a list of k "continue" labels |
| Graph.Rounds | src/workflow/graph_builder.py:54-64 | k rounds alternate derivation and validation |
| Graph.WalkFromDerive | src/workflow/graph_builder.py:54-68 | from derivation, k "continue" labels then "complete" visit k+1 rounds, then refinement, formatting and the end |
| Graph.ContinuesTail | src/workflow/edges.py:33 | dropping one "continue" from k leaves k−1 |
| Graph.WalkShape | src/workflow/graph_builder.py:49-68 | a walk from the entry loads, selects, runs k+1 rounds, refines exactly once (at position 2k+4), formats and ends |
| Graph.Round | src/workflow/graph_builder.py:54 | one derive-and-validate round counts one step, advances the attribute, only grows the rules, errors and results, and keeps the rules valid |
| Graph.Loop | src/workflow/graph_builder.py:57-64 | the loop runs while the guard says "continue" and stops within `max_iterations`, with the guard saying "complete"; over a well-formed queue it stays on the queue's attribute order |
| Graph.RunWorkflow | src/workflow/graph_builder.py:41-68 | a run ends, takes at most 20 steps, follows the graph, grows every accumulator and refines what was derived; over a well-formed queue it runs one round per queued attribute up to 20, or one round for an empty queue |
| Nodes.SelectedAttributesShape | src/workflow/nodes.py:76-130 | with selectable priority names the queue is exactly those, in order; otherwise it is the dynamic selection of at most 15; the queue is empty iff nothing is selectable |
| Nodes.KeepListed | src/workflow/nodes.py:96-104 | the loop keeps the priority names that have a selectable profile, in order |
| Nodes.FirstSelectable | src/workflow/nodes.py:106-116 | the fallback loop returns the dynamic selection under the default count |
| Nodes.SelectPriorityAttributesNode | src/workflow/nodes.py:76-130 | the node queues the selection, makes its first name current (none for an empty queue), resets the count and changes nothing else |
| Nodes.FilledContext | src/workflow/nodes.py:176-182 | the filled context always has a dataset name |
| Nodes.NodeFactsAgree | src/workflow/nodes.py:165-173 | the facts the node prints for an attribute are those the agent's analysis gives |
| Nodes.DeriveStepShape | src/workflow/nodes.py:133-201 | without a usable attribute, profile or agent the step adds one error and no rules; otherwise it only appends rules; the queue, position, count and results stay |
| Nodes.DeriveRulesNode | src/workflow/nodes.py:133-201 | the node performs the derivation step on the state |
| Nodes.DeriveForProfile | src/workflow/nodes.py:150-201 | with a found profile the node performs the derivation for that profile |
| Nodes.FillContext | src/workflow/nodes.py:176-182 | only the dataset context changes, filled from the record total |
| Nodes.FirstIndex | src/workflow/nodes.py:223-226 | the position of the first occurrence, or −1 exactly when the name is absent |
| Nodes.NextAttributeAdvances | src/workflow/nodes.py:253-258 | in a queue of distinct non-empty names, the next attribute after the i-th is the (i+1)-th or none, and with no current attribute it is the first |
| Nodes.ResultsFor | src/workflow/nodes.py:234-247 | one result per rule validated, carrying that rule's id |
| Nodes.RulesOfMembers | src/workflow/nodes.py:237-240 | the current rules are, in order, exactly the candidates of the current attribute |
| Nodes.ValidateRulesNode | src/workflow/nodes.py:204-265 | the node always advances the attribute and the count; with a sample it appends the current rules' results; rules and errors are unchanged |
| Nodes.AppendCurrentResults | src/workflow/nodes.py:234-247 | the current attribute's results are appended to the stored results |
| Nodes.IdsOf | src/workflow/nodes.py:286-292 | the id set holds exactly the ids of the rules |
| Nodes.IdsOfSnoc | src/workflow/nodes.py:286-292 | adding a rule adds its id to the seen set |
| Nodes.FirstById | src/workflow/nodes.py:286-292 | deduplication never lengthens the list |
| Nodes.FirstOfItsIdInPrefix | src/workflow/nodes.py:288-292 | a rule first of its id in a prefix stays first in the whole list |
| Nodes.FirstOfItsIdLast | src/workflow/nodes.py:288-292 | a last rule with an unseen id is first of its id |
| Nodes.FirstByIdSubsequence | src/workflow/nodes.py:288-292 | deduplication keeps an ordered sub-list |
| Nodes.FirstByIdIds | src/workflow/nodes.py:288-292 | deduplication loses no id |
| Nodes.FirstByIdDistinct | src/workflow/nodes.py:288-292 | after deduplication the ids are distinct |
| Nodes.FirstByIdKeepsFirst | src/workflow/nodes.py:288-292 | every kept rule is the first occurrence of its id |
| Nodes.FirstByIdOfDistinct | src/workflow/nodes.py:288-292 | rules with distinct ids are left unchanged |
| Nodes.FirstByIdIdempotent | src/workflow/nodes.py:288-292 | deduplicating twice is deduplicating once |
| Nodes.ResultsById | src/workflow/nodes.py:280 | the map holds exactly the ids of the results, each to a result with that id |
| Nodes.ResultsByIdLastWins | src/workflow/nodes.py:280 | for repeated ids the map keeps the last result |
| Nodes.RaisedThresholdRange | src/workflow/nodes.py:301 | the raised threshold is at most 100, and non-negative for a non-negative failure rate |
| Nodes.NodeRefinedRule | src/workflow/nodes.py:294-308 | only the threshold and provenance may change; a rule without a result is kept; it changes iff the failure rate exceeds 1.5 times its threshold, and then the note is appended; validity is kept |
| Nodes.NodeRefineRaises | src/workflow/nodes.py:297-304 | a rule's threshold never goes down, and a changed threshold covers the failure rate (capped at 100) |
| Nodes.NodeAndAgentRefine | src/workflow/nodes.py:297-304 | when the failure rate is far above the threshold, node and agent set the same threshold; when it is far below, the node keeps the rule while the agent tightens it |
| Nodes.RebuildWith | src/workflow/nodes.py:300-303 | rebuilding a valid rule from its dictionary with a threshold in [0, 100] and an extended note succeeds with just those two fields changed |
| Nodes.NodeRebuildSucceeds | src/workflow/nodes.py:299-304 | the rule the node rebuilds always passes the rule validation |
| Nodes.NodeRefinedRaised | src/workflow/nodes.py:299-304 | an adjusted rule carries the raised threshold and the adjustment note |
| Nodes.RefinedIsDedupThenAdjust | src/workflow/nodes.py:268-312 | refinement is deduplication followed by the per-rule adjustment |
| Nodes.RefinedNodeRulesShape | src/workflow/nodes.py:268-312 | the refined rules keep every id once, each the first rule of its id with at most threshold and provenance changed, and stay valid |
| Nodes.RefinedNodeRulesDedupIdempotent | src/workflow/nodes.py:286-292 | refined rules contain no duplicate to remove |
| Nodes.RefinedNodeRulesSnoc | src/workflow/nodes.py:288-308 | one more candidate adds its adjusted form iff its id is new |
| Nodes.RefineRules | src/workflow/nodes.py:285-308 | the loop with its seen-id set returns the refinement of the candidates |
| Nodes.RefineRulesNode | src/workflow/nodes.py:268-312 | only the validated rules change, set to the refinement of the candidates against the last result per id |
| Numbers.ParseDecimal | src/models/profiling_stats.py:56-62 | text without a digit never parses |
| Numbers.ParseNatToString | src/models/profiling_stats.py:56-62 | a printed natural number parses back to itself |
| Numbers.TruncToInt | src/agents/data_profiler_agent.py:132 | `int()` truncates toward zero, staying within one of the value |
| Numbers.Clamp | src/agents/rule_derivation_agent.py:202-204 | the clamped value lies in the bounds and equals the input when that does |
| Numbers.RoundToError | src/agents/rule_validation_agent.py:74 | rounding moves a value by at most half a unit of the last place |
| Numbers.PercentOf | src/agents/rule_validation_agent.py:58 | a positive part of a total is a percentage in (0, 100] |
| Numbers.RoundPercent | src/agents/rule_validation_agent.py:74 | rounding a percentage keeps it in [0, 100] |
| ProfilingStats.RemoveChar | src/models/profiling_stats.py:59 | after removing `%` none is left, and the text is no longer |
| ProfilingStats.RemoveCharAppend | src/models/profiling_stats.py:59 | removing a character distributes over concatenation |
| ProfilingStats.RemoveCharAbsent | src/models/profiling_stats.py:59 | text without the character is unchanged |
| ProfilingStats.ProfilingResult.TopValue | src/models/profiling_stats.py:74-79 | the first top value's text, present iff there are top values |
| ProfilingStats.ProfilingResult.TopValueCount | src/models/profiling_stats.py:81-86 | the first top value's count, or 0 without top values |
| ProfilingStats.ProfilingResult.GetValueList | src/models/profiling_stats.py:88-90 | the texts of the first top values, in order, at most the limit |
| ProfilingStats.ProfilingResult.GetNumericRange | src/models/profiling_stats.py:92-98 | a range is given iff both ends are present, and then it is those ends |
| ProfilingStats.CardinalityOfPercent | src/models/profiling_stats.py:56-67 | a cardinality "n%" reads as n, and it is high iff n > 90 |
| ProfilingStats.CardinalityUnparsable | src/models/profiling_stats.py:56-67 | a cardinality that does not parse reads as 0 and is not high |
| ProfilingStats.FromProfilingDict | src/models/profiling_stats.py:100-116 | a record builds iff no field is null and the missing percentage lies in [0, 100]; absent fields take their defaults and the built profile is valid |
| ProfilingStats.Names | src/models/profiling_stats.py:147-149 | the attribute names of a profile list, in order |
| ProfilingStats.Lookup | src/models/profiling_stats.py:143-145 | a name is found iff it is profiled, and the profile found carries that name |
| ProfilingStats.CountNonEmpty | src/models/profiling_stats.py:135-141 | the non-empty count never exceeds the number of attributes |
| ProfilingStats.Project | src/models/profiling_stats.py:147-149 | the profiles of the names, in the names' order |
| ProfilingStats.AddKeepsKeys | src/models/profiling_stats.py:135-141 | adding a profile keeps the names distinct and in step with the keys of the dictionary |
| ProfilingStats.KeysOf | src/models/profiling_stats.py:161-168 | the keys of a raw profile document, in order |
| ProfilingStats.StoreNext | src/models/profiling_stats.py:164-167 | one more stored record extends the names by a fresh key and keeps every stored profile in place |
| ProfilingStats.DatasetProfile.constructor | src/models/profiling_stats.py:118-133 | a new profile is empty with both counters at 0 |
| ProfilingStats.DatasetProfile.AddAttribute | src/models/profiling_stats.py:135-141 | the profile is stored under its name, a new name is appended, and the counters stay consistent |
| ProfilingStats.DatasetProfile.GetAttribute | src/models/profiling_stats.py:143-145 | the stored profile, present iff the name is stored |
| ProfilingStats.DatasetProfile.Values | src/models/profiling_stats.py:147-149 | the stored profiles in insertion order |
| ProfilingStats.DatasetProfile.GetNonEmptyAttributes | src/models/profiling_stats.py:147-149 | exactly the non-empty stored profiles, in order |
| ProfilingStats.DatasetProfile.GetLowMissingAttributes | src/models/profiling_stats.py:151-159 | exactly the stored profiles under the missing threshold, in order |
| ProfilingStats.DatasetProfile.FromJson | src/models/profiling_stats.py:161-168 | succeeds iff every record builds; then the profile holds every key in document order, each with its built profile |
| RuleDerivation.FactsOf | src/prompts/rule_derivation_prompt.py:369-387 | the prompt facts name the attribute and carry at most ten top values |
| RuleDerivation.CleanAttribute | src/agents/rule_derivation_agent.py:159-162 | letters and digits are upper-cased and every other character becomes `_`, length kept |
| RuleDerivation.GeneratedId | src/agents/rule_derivation_agent.py:159-162 | a generated id is `DQ_`, the cleaned attribute, the first three category letters upper-cased and the 1-based index padded to three digits |
| RuleDerivation.RuleIdOf | src/agents/rule_derivation_agent.py:159-166 | every id produced starts with `DQ_`: a `DQ_` id is kept, another string gets the prefix, a non-string id is rejected |
| RuleDerivation.Defaults | src/agents/rule_derivation_agent.py:169-187 | thirteen defaults, none of them null |
| RuleDerivation.FilledFrom | src/agents/rule_derivation_agent.py:185-187 | filling adds exactly the default keys |
| RuleDerivation.FilledFromShape | src/agents/rule_derivation_agent.py:185-187 | a present non-null field is kept, a missing or null one takes its default, and other fields are untouched |
| RuleDerivation.FilledFromOutside | src/agents/rule_derivation_agent.py:185-187 | a field without a default is untouched |
| RuleDerivation.FilledFromInside | src/agents/rule_derivation_agent.py:185-187 | a defaulted field keeps its non-null value or takes the default |
| RuleDerivation.FillDefaults | src/agents/rule_derivation_agent.py:185-187 | the filling loop gives the filled dictionary |
| RuleDerivation.DefaultsDistinct | src/agents/rule_derivation_agent.py:169-183 | the default keys are distinct |
| RuleDerivation.NumericValue | src/agents/rule_derivation_agent.py:190-200 | a number is kept, a string becomes its parse or, when it does not parse, the default, and null, list or object values fail |
| RuleDerivation.Stringified | src/agents/rule_derivation_agent.py:207-218 | a list becomes a list of strings of the same length keeping the strings; anything else becomes empty |
| RuleDerivation.Get | src/agents/rule_derivation_agent.py:207-218 | an absent key reads as null |
| RuleDerivation.CompletedShape | src/agents/rule_derivation_agent.py:159-187 | the completed proposal carries the chosen id and every default key, non-null, from the proposal or the default |
| RuleDerivation.DefaultsLeaveId | src/agents/rule_derivation_agent.py:169-187 | no default overwrites the rule id |
| RuleDerivation.Converted | src/agents/rule_derivation_agent.py:190-218 | threshold and confidence are clamped to [0, 100] and [0, 1], both sample lists become strings, and all other fields are kept |
| RuleDerivation.EnsureRuleFields | src/agents/rule_derivation_agent.py:141-220 | the normalising method returns the normalised proposal |
| RuleDerivation.NormalizedId | src/agents/rule_derivation_agent.py:159-166 | a normalised proposal was an object and carries its `DQ_`-prefixed id |
| RuleDerivation.NormalizedFields | src/agents/rule_derivation_agent.py:169-187 | every default key is present and non-null, taken from the proposal when it gave a value |
| RuleDerivation.NormalizedNumbers | src/agents/rule_derivation_agent.py:190-218 | threshold and confidence are numbers in range (the clamped proposal values when numeric), and both sample lists hold strings only |
| RuleDerivation.NormalizedNumberStrings | src/agents/rule_derivation_agent.py:190-204 | a threshold or confidence proposed as a string ends as its parse, or 5.0 or 0.8 when it does not parse, clamped into [0, 100] or [0, 1] |
| RuleDerivation.NormalizedParses | src/agents/rule_derivation_agent.py:128-139 | a normalised proposal builds a rule iff all its string fields are strings |
| RuleDerivation.ParsedRule | src/agents/rule_derivation_agent.py:128-139 | a rule built from a proposal is valid |
| RuleDerivation.JsonSpan | src/agents/rule_derivation_agent.py:117-126 | the span cut from the reply is a piece of it from `[` to `]`, and none is cut without a `[` |
| RuleDerivation.ParsedOne | src/agents/rule_derivation_agent.py:128-139 | one proposal gives at most one rule, and it is valid |
| RuleDerivation.ParsedFrom | src/agents/rule_derivation_agent.py:128-139 | at most one valid rule per proposal |
| RuleDerivation.ParsedFromAppend | src/agents/rule_derivation_agent.py:128-139 | parsing two runs of proposals is parsing each, the second with indices shifted |
| RuleDerivation.RulesFromResponse | src/agents/rule_derivation_agent.py:101-139 | a reply without an array span gives no rules, and every rule given is valid |
| RuleDerivation.ParseRulesFromResponse | src/agents/rule_derivation_agent.py:101-139 | the parsing loop returns the rules of the reply |
| RuleDerivation.RulesForFacts | src/agents/rule_derivation_agent.py:56-99 | a failed model call gives no rules, and every rule given is valid |
| RuleDerivation.BatchRulesShape | src/agents/rule_derivation_agent.py:273-301 | the batch holds exactly the rules derived for each analysis, all valid, and splits over concatenation |
| RuleDerivation.DeriveRulesBatch | src/agents/rule_derivation_agent.py:273-301 | the batch loop returns the concatenated rules of every analysis |
| RuleDerivation.GenerateSqlExpression | src/agents/rule_derivation_agent.py:222-248 | a templated type gives a `SELECT` over the table naming the quoted attribute; any other type gives the rule's own SQL |
| RuleDerivation.Occurs3 | src/agents/rule_derivation_agent.py:237-246 | the pieces of a template occur at their positions |
| RuleDerivation.SelectFrom | src/agents/rule_derivation_agent.py:237-246 | every SQL template starts with `SELECT ` and holds both the `FROM` clause and the quoted attribute |
| RuleDerivation.GeneratePythonExpression | src/agents/rule_derivation_agent.py:250-271 | a templated type gives a `df[` expression on the attribute's column; any other type gives the rule's own expression |
| RuleDerivation.DefaultSqlIsNotNullTemplate | src/agents/rule_derivation_agent.py:169-183 | the SQL default of a proposal is the NOT_NULL template on the products table |
| RuleDerivation.DefaultPythonIsNotNullTemplate | src/agents/rule_derivation_agent.py:169-183 | the pandas default of a proposal is the NOT_NULL template |
| RuleExpressions.LeftmostShape | src/agents/rule_validation_agent.py:185-203 | a search finds the match at the first position where one starts, and fails only when none starts anywhere |
| RuleExpressions.LeftmostSkips | src/agents/rule_validation_agent.py:185-203 | positions without a match can be skipped |
| RuleExpressions.FirstWhere | src/agents/rule_validation_agent.py:170-183 | the first position from i on whose character stops the scan, or none |
| RuleExpressions.ScanNumber | src/agents/rule_validation_agent.py:185-203 | a number is scanned iff a digit starts there; it is non-negative and greedy |
| RuleExpressions.ScanInt | src/agents/rule_validation_agent.py:219-235 | an integer is scanned iff a digit starts there; the digits run to the first non-digit |
| RuleExpressions.ScanNumberParses | src/agents/rule_validation_agent.py:185-203 | the scanned value is what `float()` gives for the matched text |
| RuleExpressions.InGroupAt | src/agents/rule_validation_agent.py:170-183 | an `IN (...)` group is non-empty and holds no `)` |
| RuleExpressions.Tokens | src/agents/rule_validation_agent.py:178-181 | the values read (quoted strings or digit runs) are non-empty |
| RuleExpressions.TokensQuoted | src/agents/rule_validation_agent.py:180-181 | a quote closed by the next copy of itself yields the text between, unless it is empty (`''` and `""` yield nothing) |
| RuleExpressions.TokensDigits | src/agents/rule_validation_agent.py:180-181 | a maximal run of digits is one value |
| RuleExpressions.TokensOther | src/agents/rule_validation_agent.py:180-181 | any other character, and a quote never closed, is passed over |
| RuleExpressions.TokensExample | src/agents/rule_validation_agent.py:176-181 | the group of `status IN ('A', "B", 3)` reads as `A`, `B`, `3` |
| RuleExpressions.TokensInfix | src/agents/rule_validation_agent.py:178-181 | every value read is a piece of the group |
| RuleExpressions.ExtractValueSet | src/agents/rule_validation_agent.py:170-183 | the sample valid values when given; otherwise exactly the values read from the group of the leftmost `IN (...)`, or none without one |
| RuleExpressions.BetweenAt | src/agents/rule_validation_agent.py:185-203 | BETWEEN bounds are non-negative |
| RuleExpressions.BoundAt | src/agents/rule_validation_agent.py:185-203 | a comparison bound starts at its operator and is non-negative |
| RuleExpressions.ExtractRange | src/agents/rule_validation_agent.py:185-203 | both bounds of the first BETWEEN clause; else the first bound after `>` and after `<`, each on its own |
| RuleExpressions.ComparisonNeedsOperator | src/agents/rule_validation_agent.py:185-203 | without BETWEEN, no `>` means no lower bound and no `<` no upper bound |
| RuleExpressions.QuotedAt | src/agents/rule_validation_agent.py:205-217 | a quoted pattern is non-empty and holds no quote |
| RuleExpressions.MatchesClauseAt | src/agents/rule_validation_agent.py:205-217 | a MATCHES pattern is non-empty and holds no quote |
| RuleExpressions.StrMatchAt | src/agents/rule_validation_agent.py:205-217 | a `.str.match` pattern is non-empty and holds no quote |
| RuleExpressions.ExtractPattern | src/agents/rule_validation_agent.py:205-217 | the first MATCHES pattern of the expression, else the first `.str.match` pattern of the pandas expression |
| RuleExpressions.LengthBoundTail | src/agents/rule_validation_agent.py:219-235 | a length bound starts at its operator |
| RuleExpressions.LazyGapShape | src/agents/rule_validation_agent.py:219-235 | the lazy gap stops at the first position where the tail matches, crossing no newline |
| RuleExpressions.ExtractLengthBounds | src/agents/rule_validation_agent.py:219-235 | both bounds of the first length BETWEEN; else the first at-least and at-most bounds on their own |
| RuleExpressions.NoLengthNoBounds | src/agents/rule_validation_agent.py:219-235 | an expression never naming `length` has no length bounds |
| RuleExpressions.ExtractExpectedType | src/agents/rule_validation_agent.py:237-243 | "numeric" iff the expression mentions numeric or number, else "date" iff it mentions date, else "string" |
| RuleValidation.CellText | src/agents/rule_validation_agent.py:110-111 | a string cell reads as itself |
| RuleValidation.Numeric | src/agents/rule_validation_agent.py:119-124 | a missing cell is no number and a numeric cell is its number |
| RuleValidation.ColumnValues | src/agents/rule_validation_agent.py:102-103 | one cell per row of the column, absent cells as missing |
| RuleValidation.FailingRecords | src/agents/rule_validation_agent.py:88-168 | for a built-in rule type the failures are an empty frame or an ordered sub-list of the sample's rows with its columns |
| RuleValidation.Preview | src/agents/rule_validation_agent.py:61-68 | at most five failing records, cut to the rule's column when it exists |
| RuleValidation.PassRateBounds | src/agents/rule_validation_agent.py:55-74 | the pass rate lies in [0, 100]: 0 without rows, 100 when all pass, 0 when none pass; with rows it is pass/total×100 rounded to two places, within 0.005 |
| RuleValidation.ErrorResult | src/agents/rule_validation_agent.py:78-86 | an error gives zero counts and a zero pass rate |
| RuleValidation.ValidateRule | src/agents/rule_validation_agent.py:31-86 | the result carries the rule id; an absent column passes every row at 100 with a note; at most five failures are shown |
| RuleValidation.ValidateRuleCounts | src/agents/rule_validation_agent.py:55-74 | for a built-in type on a present column, pass and fail counts add up to the rows, failures are rows of the sample, and the rate is in [0, 100] and on a non-empty sample within 0.005 of passCount/rows×100 |
| RuleValidation.NotEmptyCoversNotNull | src/agents/rule_validation_agent.py:107-111 | every record failing NOT_NULL also fails NOT_EMPTY |
| RuleValidation.BetweenExampleWords | src/agents/rule_validation_agent.py:185-203 | in `amount BETWEEN 6 AND 800` the keywords are found where expected |
| RuleValidation.BetweenExampleNumbers | src/agents/rule_validation_agent.py:185-203 | the two bounds scan as 6 and 800 |
| RuleValidation.BetweenExampleClause | src/agents/rule_validation_agent.py:185-203 | the BETWEEN clause reads as (6, 800) |
| RuleValidation.BetweenExampleSkip | src/agents/rule_validation_agent.py:185-203 | no clause starts before it |
| RuleValidation.BetweenExampleBounds | src/agents/rule_validation_agent.py:185-203 | the extracted range is (6, 800) |
| RuleValidation.RangeSampleMask | src/agents/rule_validation_agent.py:119-124 | the RANGE mask flags 5 and 801, passes 6 and 800, and passes the non-numeric "abc" |
| RuleValidation.RangeMaskIs | src/agents/rule_validation_agent.py:119-124 | the RANGE mask is the outside-range test on the column |
| RuleValidation.RangeSampleFailures | src/agents/rule_validation_agent.py:119-124 | the failing records of the sample are 5 and 801 |
| RuleValidation.ThreeOfFive | src/agents/rule_validation_agent.py:58 | three passes out of five is a 60% pass rate |
| RuleValidation.RangeExample | src/agents/rule_validation_agent.py:31-124 | on the five-record sample the RANGE rule fails 2, passes 3, at 60% |
| RuleValidation.KeySampleCounts | src/agents/rule_validation_agent.py:126-127 | a repeated key is a duplicate and a single one is not |
| RuleValidation.KeySampleFailures | src/agents/rule_validation_agent.py:126-127 | both copies of a repeated key fail PRIMARY_KEY |
| RuleValidation.KeyMaskIs | src/agents/rule_validation_agent.py:126-127 | the PRIMARY_KEY mask is the duplicate test with every copy flagged |
| RuleValidation.PrimaryKeyExample | src/agents/rule_validation_agent.py:31-127 | on the three-record sample the PRIMARY_KEY rule fails 2 and passes 1 |
| RuleValidation.ValidateAllRules | src/agents/rule_validation_agent.py:245-259 | one result per rule, in order, each the rule's validation |
| RuleValidation.SuggestThreshold | src/agents/rule_validation_agent.py:261-290 | the threshold changes only when the failure rate exceeds 1.5 times it or is non-zero and under half of it |
| RuleValidation.RoundNonNegative | src/agents/rule_validation_agent.py:282 | rounding keeps a non-negative value non-negative |
| RuleValidation.SuggestThresholdRange | src/agents/rule_validation_agent.py:261-290 | the suggestion stays in [0, 100] and a tightened threshold is at least 0.1 |
| RuleValidation.SuggestThresholdNear | src/agents/rule_validation_agent.py:261-290 | a loosened threshold is within 0.05 of the failure rate times 1.1 capped at 100, a tightened one within 0.05 of the failure rate times 1.5 but at least 0.1, and a tightened threshold of at least 0.2 goes strictly down |
| RuleValidation.SuggestAdmitsFailRate | src/agents/rule_validation_agent.py:279-288 | a tightened threshold, and a raised one for a failure rate of at least 0.5, admit the observed failure rate |
| RuleValidation.SuggestKeepsMatchingThreshold | src/agents/rule_validation_agent.py:276-290 | a failure rate between half and 1.5 times the threshold keeps it |
| RuleValidation.RebuiltIsAdjusted | src/agents/rule_validation_agent.py:315-319 | rebuilding a valid rule succeeds with the adjusted threshold and note iff the threshold is in [0, 100] |
| RuleValidation.RefinedRule | src/agents/rule_validation_agent.py:307-324 | the refined rule is valid, differs only in threshold and provenance, is kept without a result, and carries the suggested threshold |
| RuleValidation.RefineRules | src/agents/rule_validation_agent.py:292-326 | one refined rule per rule, in order, valid, with id, type and expression kept |
| SampleData.Cell | src/agents/rule_validation_agent.py:102-103 | a column the record lacks reads as missing |
| SampleData.ColumnsOf | src/workflow/nodes.py:234 | the columns of a frame built from records are the union of their keys |
| SampleData.FrameOf | src/workflow/nodes.py:234 | the frame keeps the records as its rows, with the union of their keys as columns |
| SampleData.Record | src/agents/rule_validation_agent.py:65-67 | a row as a record has every column of the frame |
| SampleData.HeadRecords | src/agents/rule_validation_agent.py:65-67 | the first n rows as records, in order |
| SampleData.Select | src/agents/rule_validation_agent.py:107-154 | a mask keeps the columns and the matching rows in order |
| TaxonomyFilter.CleanedNamesStep | src/config/taxonomy_filter.py:99-106 | cleaning one more name adds its stripped form exactly when it is kept |
| TaxonomyFilter.CleanedNamesHas | src/config/taxonomy_filter.py:99-106 | every kept stripped name is in the allow-list |
| TaxonomyFilter.CleanedNamesSound | src/config/taxonomy_filter.py:99-106 | every allow-listed name is the stripped form of a read name |
| TaxonomyFilter.CleanedNamesShape | src/config/taxonomy_filter.py:99-106 | allow-listed names are non-empty, not "nan" and already stripped |
| TaxonomyFilter.MembersSubsequence | src/config/taxonomy_filter.py:160-169 | the matched attributes are an ordered sub-list of the raw ones |
| TaxonomyFilter.NonMembersSubsequence | src/config/taxonomy_filter.py:189-206 | the unmatched attributes are an ordered sub-list of the raw ones |
| TaxonomyFilter.MembersCount | src/config/taxonomy_filter.py:189-206 | matched and unmatched together count the raw attributes |
| TaxonomyFilter.MembersIn | src/config/taxonomy_filter.py:160-206 | an attribute is matched iff it is raw and allow-listed, and unmatched iff raw and not |
| TaxonomyFilter.MembersPartition | src/config/taxonomy_filter.py:160-206 | matched and unmatched partition the raw attributes in order |
| TaxonomyFilter.CleanNames | src/config/taxonomy_filter.py:99-106 | the cleaning loop gives the allow-list |
| TaxonomyFilter.KeepMembers | src/config/taxonomy_filter.py:160-169 | the filtering loop keeps the allow-listed attributes in order |
| TaxonomyFilter.SplitMembers | src/config/taxonomy_filter.py:189-200 | the matching loop splits the attributes into matched and unmatched |
| TaxonomyFilter.MatchPercentage | src/config/taxonomy_filter.py:202-206 | the match percentage lies in [0, 100]: 0 without attributes, positive with a match, 100 when all match |
| TaxonomyFilter.TaxonomyAttributeFilter.constructor | src/config/taxonomy_filter.py:32-44 | a new filter has its schema, is not loaded and has empty name sets |
| TaxonomyFilter.TaxonomyAttributeFilter.LoadTaxonomyAttributes | src/config/taxonomy_filter.py:65-117 | loading happens once and gives the cleaned names; a missing or unreadable schema gives empty sets |
| TaxonomyFilter.TaxonomyAttributeFilter.IsPriorityAttribute | src/config/taxonomy_filter.py:119-138 | true iff the name is allow-listed, compared exactly or ignoring case |
| TaxonomyFilter.TaxonomyAttributeFilter.FilterPriorityAttributes | src/config/taxonomy_filter.py:140-169 | an empty allow-list gives nothing; otherwise the matched attributes in order |
| TaxonomyFilter.TaxonomyAttributeFilter.GetMatchingInfo | src/config/taxonomy_filter.py:171-206 | the report counts raw and allow-listed names, lists the matched, shows the first unmatched, counts add up, and gives the match percentage |
| TaxonomyFilter.TaxonomyRegistry.constructor | src/config/taxonomy_filter.py:222-223 | the module-level cache starts with no default filter |
| TaxonomyFilter.TaxonomyRegistry.GetTaxonomyFilter | src/config/taxonomy_filter.py:226-245 | without a path the default filter is made once and reused; with a path a fresh unloaded filter for that schema is returned and the default kept |

## Left out

- `load_profiling_node` (src/workflow/nodes.py) and `format_output_node` read and write files; the model starts from the state after loading and ends at refinement.
- `load_profiling_json`, `load_sample_data` and `parse_profiling_stats` of the profiler read files; their result is the profile table parameter.
- `get_priority_attributes`, `get_taxonomy_matching_info`, `get_all_non_empty_attributes`, `get_parent_class` and `get_dataset_context` of the profiler are thin wrappers over functions modelled elsewhere (taxonomy matching, parent-class detection, dataset naming) and are not modelled on their own.
- `get_dataset_name` (src/agents/data_profiler_agent.py:297-317) is not modelled. It derives the name from the path, then applies its own override: when a parent class is known, it replaces " " by "_" and "&" by "and" in it, and if that text does not occur in the name ignoring case, the name becomes `<parent>_Data`.
- `schema_file_path` and the spreadsheet read in `load_taxonomy_attributes` are file access; what the read gives is the `TaxonomySource` parameter (no file, a read error, or the display names).
- The output formatter agent and the approach-document generator are not part of this model.
- The language model call, the prompt text and the construction of the derivation agent (which can raise) are parameters: the model's reply as a function of the prompt facts, and the agent as a `Result`.
- `eval` of a pandas expression, `re.match` of a user pattern, `pd.to_numeric` of a string, `json.loads` and `str()` of arbitrary values are parameters of the model (the `Interp` and `Oracles` records); every property holds for all of their behaviours.
- Logging, `print` and timestamps are left out.
- LangGraph compilation, checkpointing and the `recursion_limit` are left out; the run is modelled by the graph's edge table and the loop over the state.
- The `isinstance` filters on rules and the `dict`-versus-object branches of the parent-class functions: every rule in the model is a `DQRule`, and a profile entry is a `ProfilingResult` with a flag for its dictionary form.
- Python's split between `int` and `float`, and booleans counting as numbers, are not modelled; numbers are exact reals.
- `float()` is modelled for plain decimals only (no exponents, `inf`, `nan` or underscores).
- `round()` is modelled as rounding halves upwards on exact reals; Python rounds binary floats with halves to even.
- `lower()` and `upper()` map ASCII letters only; other letters are left unchanged. Case-insensitive matching of the ASCII words in the parsers is complete: besides the two cases of each letter it admits the four non-ASCII letters the `re` engine folds onto ASCII ones (dotted and dotless i, long s, the Kelvin sign).
- `\d` in a `re` pattern and `float()` also accept non-ASCII decimal digits (Arabic-Indic ones, for instance); the model's digits are `0` to `9` only, so the value-list tokens, the number scanners, the digit run after a dataset-name suffix and the decimal parser do not read such digits (`attr IN ('a', ٣)` reads as one value where Python reads two).
- Nodes.NodeRefineRaises: requires a failure rate of at least 0.5, because below that rounding to one decimal can lower the threshold (a failure rate of 0.04 against a threshold of 0.02 gives a new threshold of 0.0).
- RuleValidation.SuggestAdmitsFailRate: states the raised threshold admits the failure rate only for a failure rate of at least 0.5, for the same rounding reason.
- Lists, Text, JsonValues and Wrappers hold helpers (filters, strip, split, digit printing, JSON values, Option/Result) that the rows above rely on and that model Python built-ins rather than the repository's code.
