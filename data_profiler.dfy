/**
 * The profile view of `DataProfilerAgent` (src/agents/data_profiler_agent.py): the
 * record-count estimate, the fallback and taxonomy-filtered attribute selections with
 * their cache, and the rule-type and severity recommendations for one attribute.
 */
module DataProfiler {
  import opened Wrappers
  import opened Text
  import opened Numbers
  import opened Lists
  import opened ProfilingStats
  import opened AttributeConfig
  import opened TaxonomyFilter

  // ---------------------------------------------------------------------------------
  // Record-count estimate

  /** `sum(tv.get('count', 0) for tv in top_values)`. */
  function TopCountSum(top: seq<TopEntry>): int {
    if top == [] then 0 else TopCountSum(top[..|top| - 1]) + EntryCount(top[|top| - 1])
  }

  /** The summing loop of `get_total_records`. */
  method SumTopCounts(top: seq<TopEntry>) returns (total: int)
    ensures total == TopCountSum(top)
  {
    total := 0;
    var j := 0;
    while j < |top|
      invariant 0 <= j <= |top|
      invariant total == TopCountSum(top[..j])
    {
      assert top[..j + 1][..j] == top[..j];
      total := total + EntryCount(top[j]);
      j := j + 1;
    }
    assert top[..|top|] == top;
  }

  /** The attribute `get_total_records` estimates from: almost never missing, with top
      values and a positive cardinality. */
  predicate CountsRecords(p: ProfilingResult) {
    p.missingPercentage < 1.0 && |p.topValues| > 0 && p.CardinalityFloat() > 0.0
  }

  /** The first profile, in profiling order, that `get_total_records` estimates from. */
  function FirstCounting(t: ProfileTable): Option<ProfilingResult> {
    if t == [] then None
    else if CountsRecords(t[0]) then Some(t[0])
    else FirstCounting(t[1..])
  }

  /** The profile found qualifies and every profile before it does not; when none is
      found, none qualifies. */
  lemma {:induction false} FirstCountingShape(t: ProfileTable)
    ensures FirstCounting(t).None? ==> forall k :: 0 <= k < |t| ==> !CountsRecords(t[k])
    ensures FirstCounting(t).Some? ==>
      exists k :: FirstCountingAt(t, k) && t[k] == FirstCounting(t).value
  {
    if t != [] && CountsRecords(t[0]) {
      assert FirstCountingAt(t, 0);
    } else if t != [] {
      FirstCountingShape(t[1..]);
      if FirstCounting(t[1..]).Some? {
        var k :| FirstCountingAt(t[1..], k) && t[1..][k] == FirstCounting(t).value;
        FirstCountingAtCons(t, k);
      } else {
        NoneBeforeCons(t, |t|, CountsRecords);
      }
    }
  }

  /** `t[k]` qualifies and no profile before it does. */
  predicate FirstCountingAt(t: ProfileTable, k: int) {
    0 <= k < |t| && CountsRecords(t[k]) && forall j :: 0 <= j < k ==> !CountsRecords(t[j])
  }

  lemma FirstCountingAtCons(t: ProfileTable, k: int)
    requires t != [] && !CountsRecords(t[0]) && FirstCountingAt(t[1..], k)
    ensures FirstCountingAt(t, k + 1) && t[k + 1] == t[1..][k]
  {
    assert t[k + 1] == t[1..][k];
    NoneBeforeCons(t, k + 1, CountsRecords);
  }

  lemma FirstCountingStep(t: ProfileTable, i: nat)
    requires i < |t|
    ensures FirstCounting(t[i..]) == if CountsRecords(t[i]) then Some(t[i]) else FirstCounting(t[i + 1..])
  {
    assert t[i..][1..] == t[i + 1..];
  }

  /** The estimate from a top-value count sum and a cardinality percentage: the sum scaled
      up by the percentage (truncated toward zero), never below the sum itself. */
  function EstimateOf(total: int, cardinality: real): (r: int)
    ensures r >= total
    ensures cardinality >= 100.0 ==> r == total
    ensures 0 <= total && 0.0 < cardinality < 100.0 ==> r == TruncToInt(total as real * 100.0 / cardinality)
  {
    var estimated := if cardinality > 0.0 && cardinality < 100.0
      then TruncToInt(total as real / (cardinality / 100.0)) else total;
    if 0 <= total && 0.0 < cardinality < 100.0 then
      ScaleUp(total, cardinality);
      if total > estimated then total else estimated
    else
      if total > estimated then total else estimated
  }

  /** Dividing a non-negative count by a fraction below one does not shrink it. */
  lemma ScaleUp(total: int, cardinality: real)
    requires 0 <= total && 0.0 < cardinality < 100.0
    ensures total as real / (cardinality / 100.0) == total as real * 100.0 / cardinality
    ensures total as real * 100.0 / cardinality >= total as real
  {
    var x := total as real;
    assert x / (cardinality / 100.0) == x * 100.0 / cardinality;
    DivMonotone(cardinality, 100.0, cardinality);
    assert cardinality / cardinality == 1.0;
    assert x * 100.0 / cardinality == x * (100.0 / cardinality);
    MulPositiveLe(1.0, 100.0 / cardinality, 1.0);
    if total > 0 {
      MulPositiveLe(1.0, 100.0 / cardinality, x);
    }
  }


  /** `get_total_records`: 0 when no profile qualifies, else the estimate from the first
      that does. */
  function TotalRecords(t: ProfileTable): int {
    match FirstCounting(t)
    case None => 0
    case Some(p) => EstimateOf(TopCountSum(p.topValues), p.CardinalityFloat())
  }

  // ---------------------------------------------------------------------------------
  // Fallback selection: the first non-empty attributes in profiling order

  /** Not empty and not fully missing. */
  predicate Selectable(p: ProfilingResult) {
    !p.IsEmpty() && p.missingPercentage < 100.0
  }

  /** The names of the selectable profiles, in profiling order. */
  function SelectableNames(t: ProfileTable): seq<string> {
    if t == [] then []
    else
      var p := t[|t| - 1];
      SelectableNames(t[..|t| - 1]) + (if Selectable(p) then [p.attributeName] else [])
  }

  lemma {:induction false} SelectableNamesAppend(a: ProfileTable, b: ProfileTable)
    ensures SelectableNames(a + b) == SelectableNames(a) + SelectableNames(b)
    decreases |b|
  {
    if b == [] {
      assert a + b == a;
    } else {
      assert (a + b)[..|a + b| - 1] == a + b[..|b| - 1];
      SelectableNamesAppend(a, b[..|b| - 1]);
    }
  }

  /** The selectable names are an order-preserving subsequence of the names, holding the
      name of every selectable profile and only those. */
  lemma {:induction false} SelectableNamesShape(t: ProfileTable)
    ensures IsSubsequence(SelectableNames(t), Names(t))
    ensures forall k :: 0 <= k < |t| && Selectable(t[k]) ==> t[k].attributeName in SelectableNames(t)
    ensures forall n :: n in SelectableNames(t) ==> exists k :: 0 <= k < |t| && t[k].attributeName == n && Selectable(t[k])
  {
    if t == [] {
      SubsequenceRefl(Names(t));
    } else {
      var init := t[..|t| - 1];
      var p := t[|t| - 1];
      SelectableNamesShape(init);
      assert Names(t) == Names(init) + [p.attributeName];
      if Selectable(p) {
        assert SelectableNames(t) == SelectableNames(init) + [p.attributeName];
      } else {
        assert SelectableNames(t) == SelectableNames(init);
      }
      SubsequenceExtend(SelectableNames(init), Names(init), p.attributeName);
      forall k | 0 <= k < |t| && Selectable(t[k])
        ensures t[k].attributeName in SelectableNames(t)
      {
        if k < |init| { assert init[k] == t[k]; }
      }
      forall n | n in SelectableNames(t)
        ensures exists k :: 0 <= k < |t| && t[k].attributeName == n && Selectable(t[k])
      {
        if n in SelectableNames(init) {
          var k :| 0 <= k < |init| && init[k].attributeName == n && Selectable(init[k]);
          assert t[k] == init[k];
        } else {
          assert t[|t| - 1].attributeName == n && Selectable(t[|t| - 1]);
        }
      }
    }
  }

  /** The loop appends before it tests the count, so it always keeps at least one. */
  function Cap(count: int): nat {
    if count < 1 then 1 else count
  }

  /** `get_dynamic_priority_attributes`. */
  function DynamicPriority(t: ProfileTable, count: int): seq<string> {
    Take(SelectableNames(t), Cap(count))
  }

  /** The fallback selection follows profiling order, holds only selectable attributes,
      and stops at `count` (at least one when there is one). */
  lemma DynamicPriorityShape(t: ProfileTable, count: int)
    ensures IsSubsequence(DynamicPriority(t, count), Names(t))
    ensures |DynamicPriority(t, count)| <= Cap(count)
    ensures forall n :: n in DynamicPriority(t, count) ==>
      exists k :: 0 <= k < |t| && t[k].attributeName == n && Selectable(t[k])
    ensures |SelectableNames(t)| <= Cap(count) ==> DynamicPriority(t, count) == SelectableNames(t)
  {
    var s := SelectableNames(t);
    SelectableNamesShape(t);
    SubsequencePrefix(s, |DynamicPriority(t, count)|);
    SubsequenceTrans(DynamicPriority(t, count), s, Names(t));
    SubsequenceMembers(DynamicPriority(t, count), s);
    assert s[..|s|] == s;
  }

  // ---------------------------------------------------------------------------------
  // Taxonomy-filtered selection

  /** Whether `name` has a selectable profile. */
  predicate HasSelectableProfile(t: ProfileTable, name: string) {
    var p := Lookup(t, name);
    p.Some? && Selectable(p.value)
  }

  /** The entries of `names` that have a selectable profile, in order. */
  function SelectableAmong(names: seq<string>, t: ProfileTable): seq<string> {
    if names == [] then []
    else
      var n := names[|names| - 1];
      SelectableAmong(names[..|names| - 1], t) + (if HasSelectableProfile(t, n) then [n] else [])
  }

  lemma {:induction false} SelectableAmongAppend(a: seq<string>, b: seq<string>, t: ProfileTable)
    ensures SelectableAmong(a + b, t) == SelectableAmong(a, t) + SelectableAmong(b, t)
    decreases |b|
  {
    if b == [] {
      assert a + b == a;
    } else {
      assert (a + b)[..|a + b| - 1] == a + b[..|b| - 1];
      SelectableAmongAppend(a, b[..|b| - 1], t);
    }
  }

  lemma {:induction false} SelectableAmongShape(names: seq<string>, t: ProfileTable)
    ensures IsSubsequence(SelectableAmong(names, t), names)
    ensures forall n :: n in SelectableAmong(names, t) <==> n in names && HasSelectableProfile(t, n)
  {
    if names == [] {
      SubsequenceRefl(names);
    } else {
      var init := names[..|names| - 1];
      var n := names[|names| - 1];
      assert names == init + [n];
      SelectableAmongShape(init, t);
      if HasSelectableProfile(t, n) {
        assert SelectableAmong(names, t) == SelectableAmong(init, t) + [n];
      } else {
        assert SelectableAmong(names, t) == SelectableAmong(init, t);
      }
      SubsequenceExtend(SelectableAmong(init, t), init, n);
    }
  }

  /** A positive limit caps the list; zero or a negative limit keeps all of it. */
  function Capped(s: seq<string>, maxAttrs: int): seq<string> {
    if maxAttrs > 0 then Take(s, maxAttrs) else s
  }

  lemma CappedShape(s: seq<string>, maxAttrs: int)
    ensures IsSubsequence(Capped(s, maxAttrs), s)
    ensures forall n :: n in Capped(s, maxAttrs) ==> n in s
    ensures maxAttrs > 0 ==> |Capped(s, maxAttrs)| <= maxAttrs
    ensures s != [] ==> Capped(s, maxAttrs) != []
  {
    var r := Capped(s, maxAttrs);
    SubsequencePrefix(s, |r|);
    assert s[..|s|] == s;
    SubsequenceMembers(r, s);
  }

  /** The loop of `get_taxonomy_filtered_attributes` over the matched names. */
  method KeepSelectable(matched: seq<string>, t: ProfileTable, maxAttrs: int) returns (filtered: seq<string>)
    ensures filtered == Capped(SelectableAmong(matched, t), maxAttrs)
  {
    filtered := [];
    var i := 0;
    while i < |matched|
      invariant 0 <= i <= |matched|
      invariant filtered == SelectableAmong(matched[..i], t)
      invariant maxAttrs > 0 ==> |filtered| < maxAttrs
    {
      var attrName := matched[i];
      assert matched[..i + 1][..i] == matched[..i];
      assert matched[..i + 1][i] == attrName;
      var stats := Lookup(t, attrName);
      if stats.Some? {
        if !stats.value.IsEmpty() && stats.value.missingPercentage < 100.0 {
          filtered := filtered + [attrName];
          if maxAttrs > 0 && |filtered| >= maxAttrs {
            assert filtered == SelectableAmong(matched[..i + 1], t);
            SelectableAmongAppend(matched[..i + 1], matched[i + 1..], t);
            assert matched[..i + 1] + matched[i + 1..] == matched;
            return;
          }
        }
      }
      i := i + 1;
    }
    assert matched[..|matched|] == matched;
  }

  /**
   * What `get_taxonomy_filtered_attributes` computes on a cache miss: the selectable
   * attributes among those the allow-list matches, capped by the limit, or the fallback
   * selection when none survive.
   */
  function TaxonomySelection(t: ProfileTable, allow: set<string>, caseSensitive: bool, maxAttrs: int, count: int): seq<string> {
    var kept := Capped(SelectableAmong(Members(Names(t), allow, caseSensitive), t), maxAttrs);
    if kept != [] then kept else DynamicPriority(t, count)
  }

  /** A non-empty taxonomy selection is an order-preserving subsequence of the matched
      attributes, holds only selectable matched attributes, and respects a positive limit;
      otherwise the fallback is used. */
  lemma TaxonomySelectionShape(t: ProfileTable, allow: set<string>, caseSensitive: bool, maxAttrs: int, count: int)
    ensures var matched := Members(Names(t), allow, caseSensitive);
      var r := TaxonomySelection(t, allow, caseSensitive, maxAttrs, count);
      if SelectableAmong(matched, t) != [] then
        && IsSubsequence(r, matched)
        && (forall n :: n in r ==> IsMember(allow, n, caseSensitive) && HasSelectableProfile(t, n))
        && (maxAttrs > 0 ==> |r| <= maxAttrs)
        && r != []
      else
        r == DynamicPriority(t, count)
  {
    var matched := Members(Names(t), allow, caseSensitive);
    var among := SelectableAmong(matched, t);
    if among != [] {
      MembersPartition(Names(t), allow, caseSensitive);
      SelectableAmongShape(matched, t);
      CappedShape(among, maxAttrs);
      SubsequenceTrans(Capped(among, maxAttrs), among, matched);
    }
  }

  // ---------------------------------------------------------------------------------
  // Recommendations for one attribute

  /** The first severity band, in table order, holding `m`. */
  function FirstBand(bands: seq<Band>, m: real): (r: Option<string>)
    ensures r.Some? ==> exists k :: 0 <= k < |bands| && bands[k].severity == r.value && bands[k].low <= m < bands[k].high
    ensures r.None? ==> forall k :: 0 <= k < |bands| ==> !(bands[k].low <= m < bands[k].high)
  {
    if bands == [] then None
    else if bands[0].low <= m < bands[0].high then Some(bands[0].severity)
    else
      var r := FirstBand(bands[1..], m);
      if r.Some? then
        var k :| 0 <= k < |bands[1..]| && bands[1..][k].severity == r.value && bands[1..][k].low <= m < bands[1..][k].high;
        assert bands[k + 1] == bands[1..][k];
        r
      else r
  }

  /** The band names of the missing-percentage table. */
  lemma BandNames(m: real)
    requires 0.0 < m < 100.0
    ensures FirstBand(SeverityBands, m).Some?
    ensures FirstBand(SeverityBands, m).value == (if m < 5.0 then "Critical" else if m < 20.0 then "High" else if m < 50.0 then "Medium" else "Low")
  {
    SeverityBandsTile(m);
  }

  /** The texts of the first ten top values, lower-cased. */
  function LowerTopTen(top: seq<TopEntry>): (r: seq<string>)
    ensures |r| == if |top| < 10 then |top| else 10
    ensures forall k :: 0 <= k < |r| ==> r[k] == Lower(EntryText(top[k]))
  {
    var ten := Take(top, 10);
    seq(|ten|, k requires 0 <= k < |ten| => Lower(EntryText(ten[k])))
  }

  /** Some value among the first ten top values appears again with another (or the same) case. */
  predicate HasCaseDuplicates(top: seq<TopEntry>) {
    !Distinct(LowerTopTen(top))
  }

  /** `"NOT_NULL:" + band`. */
  function NotNullRule(band: string): string {
    "NOT_NULL:" + band
  }

  predicate IsNotNullRule(x: string) {
    |x| >= 9 && x[..9] == "NOT_NULL:"
  }

  lemma NotNullRuleShape(b: string)
    ensures IsNotNullRule(NotNullRule(b)) && NotNullRule(b)[9..] == b
  {
  }

  /** A text of the `NOT_NULL:` form, by its first and ninth characters. */
  lemma NotNullRuleChars(x: string)
    ensures IsNotNullRule(x) ==> x[0] == 'N' && x[8] == ':'
  {
    if IsNotNullRule(x) {
      assert x[0] == x[..9][0] && x[8] == x[..9][8];
    }
  }

  /** The mapped rule types and the other fixed recommendations are plain names, none of
      the `NOT_NULL:` form. */
  lemma FixedRulesPlain(dataType: string)
    ensures forall x :: x in DatatypeRules(dataType) ==> !IsNotNullRule(x)
    ensures !IsNotNullRule("PRIMARY_KEY") && !IsNotNullRule("NEAR_DUPLICATE") && !IsNotNullRule("CASE_CONSISTENCY")
  {
    forall x | x in DatatypeRules(dataType) || x in ["PRIMARY_KEY", "NEAR_DUPLICATE", "CASE_CONSISTENCY"]
      ensures !IsNotNullRule(x)
    {
      NotNullRuleChars(x);
    }
  }

  /** The completeness recommendation: one `NOT_NULL:<band>` for a partly missing attribute. */
  function CompletenessRules(missing: real): (r: set<string>)
    ensures forall x :: x in r ==> IsNotNullRule(x)
    ensures forall b :: NotNullRule(b) in r <==> 0.0 < missing < 100.0 && FirstBand(SeverityBands, missing) == Some(b)
  {
    if 0.0 < missing < 100.0 then
      match FirstBand(SeverityBands, missing)
      case Some(band) =>
        NotNullRuleShape(band);
        assert forall b :: NotNullRule(b) == NotNullRule(band) ==> b == band by {
          forall b | NotNullRule(b) == NotNullRule(band) ensures b == band {
            NotNullRuleShape(b);
          }
        }
        {NotNullRule(band)}
      case None => {}
    else {}
  }

  /** The uniqueness recommendation: PRIMARY_KEY above 90% cardinality, else NEAR_DUPLICATE above 80%. */
  function UniquenessRules(cardinality: real): (r: set<string>)
    ensures "PRIMARY_KEY" in r <==> cardinality > 90.0
    ensures "NEAR_DUPLICATE" in r <==> 80.0 < cardinality <= 90.0
    ensures forall x :: x in r ==> x == "PRIMARY_KEY" || x == "NEAR_DUPLICATE"
  {
    if cardinality > 90.0 then {"PRIMARY_KEY"}
    else if cardinality > 80.0 then {"NEAR_DUPLICATE"}
    else {}
  }

  /** The case-consistency recommendation for categorical attributes with case duplicates. */
  function ConsistencyRules(dataType: string, top: seq<TopEntry>): (r: set<string>)
    ensures "CASE_CONSISTENCY" in r <==> dataType == "Categorical" && |top| > 1 && HasCaseDuplicates(top)
    ensures forall x :: x in r ==> x == "CASE_CONSISTENCY"
  {
    if dataType == "Categorical" && |top| > 1 && HasCaseDuplicates(top)
    then {"CASE_CONSISTENCY"} else {}
  }

  /**
   * The recommendation from the profile's figures: the mapped rule types, exactly one
   * `NOT_NULL:<band>` (the band holding the missing percentage) when the attribute is
   * partly missing, PRIMARY_KEY above 90% cardinality, NEAR_DUPLICATE above 80% otherwise,
   * CASE_CONSISTENCY for categorical case duplicates, and nothing else.
   */
  function RuleTypesFor(dataType: string, missing: real, cardinality: real, top: seq<TopEntry>): (r: set<string>)
    ensures forall x :: x in DatatypeRules(dataType) ==> x in r
    ensures forall b :: NotNullRule(b) in r <==> 0.0 < missing < 100.0 && FirstBand(SeverityBands, missing) == Some(b)
    ensures "PRIMARY_KEY" in r <==> cardinality > 90.0 || dataType == "ID"
    ensures "NEAR_DUPLICATE" in r <==> 80.0 < cardinality <= 90.0
    ensures dataType == "Categorical" && |top| > 1 && HasCaseDuplicates(top) ==> "CASE_CONSISTENCY" in r
    ensures "CASE_CONSISTENCY" in r <==> dataType == "Categorical"
    ensures forall x :: x in r ==>
      || x in DatatypeRules(dataType) || IsNotNullRule(x)
      || x == "PRIMARY_KEY" || x == "NEAR_DUPLICATE" || x == "CASE_CONSISTENCY"
  {
    FixedRulesPlain(dataType);
    forall b ensures IsNotNullRule(NotNullRule(b)) {
      NotNullRuleShape(b);
    }
    MappedKeyAndCase(dataType);
    (set x | x in DatatypeRules(dataType)) + CompletenessRules(missing) + UniquenessRules(cardinality)
      + ConsistencyRules(dataType, top)
  }

  /** Which datatypes the mapping gives the key and the case rule, and none a near-duplicate. */
  lemma MappedKeyAndCase(dataType: string)
    ensures "PRIMARY_KEY" in DatatypeRules(dataType) <==> dataType == "ID"
    ensures "CASE_CONSISTENCY" in DatatypeRules(dataType) <==> dataType == "Categorical"
    ensures "NEAR_DUPLICATE" !in DatatypeRules(dataType)
  {
  }

  /** The case-duplicate test never changes the recommendation: the only type it can add is
      already mapped for categorical attributes. */
  lemma CaseTestChangesNothing(dataType: string, missing: real, cardinality: real, top: seq<TopEntry>)
    ensures RuleTypesFor(dataType, missing, cardinality, top) == RuleTypesFor(dataType, missing, cardinality, [])
  {
    var r, r0 := RuleTypesFor(dataType, missing, cardinality, top), RuleTypesFor(dataType, missing, cardinality, []);
    assert ConsistencyRules(dataType, []) == {};
    forall x | x in r ensures x in r0 {
      if x == "CASE_CONSISTENCY" {
        assert "CASE_CONSISTENCY" in DatatypeRules(dataType);
      }
    }
  }

  /** `recommend_rule_types`, as the set its final `list(set(...))` holds. */
  function RecommendRuleTypes(p: ProfilingResult): set<string> {
    RuleTypesFor(p.dataType, p.missingPercentage, p.CardinalityFloat(), p.topValues)
  }

  /** The severity from the profile's figures. */
  function SeverityFor(cardinality: real, missing: real): string {
    if cardinality > 90.0 then "Critical"
    else if missing < 5.0 then "High"
    else if missing < 20.0 then "Medium"
    else "Low"
  }

  /** `recommend_severity`. */
  function RecommendSeverity(p: ProfilingResult): string {
    SeverityFor(p.CardinalityFloat(), p.missingPercentage)
  }

  /** How severe a level is: Critical highest, Low lowest. */
  function SeverityRank(s: string): nat {
    if s == "Critical" then 3 else if s == "High" then 2 else if s == "Medium" then 1 else 0
  }

  /** The recommendation is one of the four levels, Critical exactly above 90% cardinality,
      and never rises as more of the attribute is missing. */
  lemma SeverityForOrder(cardinality: real, m1: real, m2: real)
    requires m1 <= m2
    ensures SeverityFor(cardinality, m1) in ["Critical", "High", "Medium", "Low"]
    ensures SeverityFor(cardinality, m1) == "Critical" <==> cardinality > 90.0
    ensures SeverityRank(SeverityFor(cardinality, m2)) <= SeverityRank(SeverityFor(cardinality, m1))
  {
  }

  /** The context `analyze_attribute` hands to rule derivation. */
  datatype Analysis = Analysis(
    attributeName: string,
    dataType: string,
    missingPercentage: real,
    cardinality: string,
    topValues: seq<TopEntry>,
    range: Option<seq<Option<real>>>,
    isEmpty: bool,
    isHighCardinality: bool,
    recommendedRules: set<string>,
    recommendedSeverity: string,
    minValue: Option<real>,
    maxValue: Option<real>)

  /** `analyze_attribute`; an unknown attribute is an error. */
  function AnalyzeAttribute(t: ProfileTable, attrName: string): (r: Result<Analysis>)
    ensures r.Failure? <==> attrName !in Names(t)
    ensures r.Success? ==>
      var p := Lookup(t, attrName).value;
      var a := r.value;
      && a.attributeName == attrName && a.dataType == p.dataType
      && a.missingPercentage == p.missingPercentage && a.cardinality == p.cardinality && a.range == p.range
      && a.topValues == Take(p.topValues, 10) && |a.topValues| <= 10
      && a.isEmpty == p.IsEmpty() && a.isHighCardinality == p.IsHighCardinality()
      && a.recommendedRules == RecommendRuleTypes(p)
      && a.recommendedSeverity == RecommendSeverity(p)
      && (a.minValue.Some? <==> p.dataType == "Numeric" && p.GetNumericRange().Some?)
      && (a.minValue.Some? ==> a.maxValue.Some? && (a.minValue.value, a.maxValue.value) == p.GetNumericRange().value)
  {
    match Lookup(t, attrName)
    case None => Failure("Attribute '" + attrName + "' not found in profiling stats")
    case Some(p) =>
      var numeric := if p.dataType == "Numeric" && p.range.Some? && |p.range.value| > 0
        then p.GetNumericRange() else None;
      Success(Analysis(attrName, p.dataType, p.missingPercentage, p.cardinality,
        Take(p.topValues, 10), p.range, p.IsEmpty(), p.IsHighCardinality(),
        RecommendRuleTypes(p), RecommendSeverity(p),
        if numeric.Some? then Some(numeric.value.0) else None,
        if numeric.Some? then Some(numeric.value.1) else None))
  }

  // ---------------------------------------------------------------------------------
  // The agent

  class DataProfilerAgent {
    /** The profiles, as loaded from the profiling file. */
    const profilingStats: ProfileTable
    /** The schema folder or file, `data/schema` unless one is given. */
    const schemaPath: string
    /** What reading that schema gives. */
    const schema: TaxonomySource
    /** The fallback number of attributes. */
    const attributeCount: int
    var taxonomyFilter: TaxonomyAttributeFilter?
    var taxonomyFilteredAttributes: Option<seq<string>>

    ghost predicate Valid()
      reads this, taxonomyFilter
    {
      taxonomyFilter != null ==>
        taxonomyFilter.Valid() && taxonomyFilter.loaded && taxonomyFilter.schema == schema
    }

    constructor (profilingStats: ProfileTable, schemaPath: Option<string>, schema: TaxonomySource, attributeCount: int)
      ensures Valid()
      ensures this.profilingStats == profilingStats && this.schema == schema && this.attributeCount == attributeCount
      ensures this.schemaPath == if schemaPath.None? || schemaPath.value == "" then DefaultSchemaPath else schemaPath.value
      ensures taxonomyFilter == null && taxonomyFilteredAttributes == None
    {
      this.profilingStats := profilingStats;
      this.schemaPath := if schemaPath.None? || schemaPath.value == "" then DefaultSchemaPath else schemaPath.value;
      this.schema := schema;
      this.attributeCount := attributeCount;
      taxonomyFilter := null;
      taxonomyFilteredAttributes := None;
    }

    /** `get_total_records`: scans in profiling order and estimates from the first profile
        that qualifies. */
    method GetTotalRecords() returns (n: int)
      ensures n == TotalRecords(profilingStats)
      ensures n == 0 || exists p :: p in profilingStats && CountsRecords(p) && n >= TopCountSum(p.topValues)
    {
      var t := profilingStats;
      var i := 0;
      while i < |t|
        invariant 0 <= i <= |t|
        invariant FirstCounting(t[i..]) == FirstCounting(t)
      {
        var stats := t[i];
        FirstCountingStep(t, i);
        if stats.missingPercentage < 1.0 {
          if |stats.topValues| > 0 {
            var total := SumTopCounts(stats.topValues);
            var cardinality := stats.CardinalityFloat();
            if cardinality > 0.0 {
              return EstimateOf(total, cardinality);
            }
          }
        }
        i := i + 1;
      }
      return 0;
    }

    /** `get_dynamic_priority_attributes`. */
    method GetDynamicPriorityAttributes() returns (selected: seq<string>)
      ensures selected == DynamicPriority(profilingStats, attributeCount)
    {
      var t := profilingStats;
      selected := [];
      var i := 0;
      while i < |t|
        invariant 0 <= i <= |t|
        invariant selected == SelectableNames(t[..i])
        invariant |selected| < Cap(attributeCount)
      {
        var stats := t[i];
        assert t[..i + 1][..i] == t[..i];
        assert t[..i + 1][i] == stats;
        if stats.IsEmpty() {
        } else if stats.missingPercentage >= 100.0 {
        } else {
          selected := selected + [stats.attributeName];
          if |selected| >= attributeCount {
            assert selected == SelectableNames(t[..i + 1]);
            SelectableNamesAppend(t[..i + 1], t[i + 1..]);
            assert t[..i + 1] + t[i + 1..] == t;
            return;
          }
        }
        i := i + 1;
      }
      assert t[..|t|] == t;
    }

    /** `get_taxonomy_filter`: the filter is built and loaded on first use, then reused. */
    method GetTaxonomyFilter() returns (f: TaxonomyAttributeFilter)
      requires Valid()
      modifies this
      ensures Valid() && f == taxonomyFilter
      ensures f.loaded && f.taxonomyAttributes == Loaded(schema)
      ensures old(taxonomyFilter) != null ==> f == old(taxonomyFilter)
      ensures old(taxonomyFilter) == null ==> fresh(f) && f.schemaPath == Some(schemaPath)
      ensures taxonomyFilteredAttributes == old(taxonomyFilteredAttributes)
    {
      if taxonomyFilter == null {
        var created := new TaxonomyAttributeFilter(Some(schemaPath), schema);
        var _ := created.LoadTaxonomyAttributes();
        taxonomyFilter := created;
      }
      f := taxonomyFilter;
    }

    /**
     * `get_taxonomy_filtered_attributes`: once computed, the cached list is returned
     * unchanged; otherwise the taxonomy selection (or the fallback) is computed and cached.
     */
    method GetTaxonomyFilteredAttributes(caseSensitive: bool, limit: Option<int>) returns (r: seq<string>)
      requires Valid()
      modifies this, taxonomyFilter
      ensures Valid()
      ensures old(taxonomyFilteredAttributes).Some? ==> r == old(taxonomyFilteredAttributes).value
      ensures old(taxonomyFilteredAttributes).None? ==>
        r == TaxonomySelection(profilingStats, Loaded(schema), caseSensitive, limit.GetOr(attributeCount), attributeCount)
      ensures taxonomyFilteredAttributes == Some(r)
    {
      if taxonomyFilteredAttributes.Some? {
        return taxonomyFilteredAttributes.value;
      }
      var maxAttrs := if limit.Some? then limit.value else attributeCount;
      var rawAttributes := Names(profilingStats);
      var filter := GetTaxonomyFilter();
      var info := filter.GetMatchingInfo(rawAttributes, caseSensitive);
      var filteredMatched := KeepSelectable(info.matchedAttributes, profilingStats, maxAttrs);
      if filteredMatched != [] {
        r := filteredMatched;
      } else {
        r := GetDynamicPriorityAttributes();
      }
      taxonomyFilteredAttributes := Some(r);
    }
  }
}
