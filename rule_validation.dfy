/** The validation agent: it runs each derived rule over the sample relation, counts the
    records that fail it, and suggests a threshold that fits the observed failure rate. */
module RuleValidation {
  import opened Wrappers
  import opened Text
  import opened Numbers
  import opened Lists
  import opened SampleData
  import opened JsonValues
  import opened DqRule
  import opened AgentState
  import opened RuleExpressions

  /** What `eval` of a rule's pandas expression gives: an exception, a value that is not a
      DataFrame, or a DataFrame together with whether all its column labels are strings. */
  datatype EvalOutcome = EvalRaised | EvalOther | EvalFrame(frame: Frame, stringLabels: bool)

  /** The library behaviour the validator relies on and this model does not compute:
      `str()` of a non-string cell, `pd.to_numeric(errors='coerce')` of a string, whether a
      pattern compiles, `re.match`, `eval` of an expression over the sample, and the
      message of the error raised when a result cannot be built. */
  datatype Interp = Interp(
    show: Value -> string,
    toNumeric: string -> Option<real>,
    compiles: string -> bool,
    matches: (string, string) -> bool,
    evaluate: (string, Frame) -> EvalOutcome,
    errorText: string)

  /** `astype(str)` of one cell. */
  function CellText(interp: Interp, v: Value): (t: string)
    ensures v.Str? ==> t == v.s
  {
    match v
    case Str(s) => s
    case _ => interp.show(v)
  }

  /** `pd.to_numeric(errors='coerce')` of one cell: missing stays missing. */
  function Numeric(interp: Interp, v: Value): (r: Option<real>)
    ensures v.Null? ==> r.None?
    ensures v.Num? ==> r == Some(v.n)
  {
    match v
    case Null => None
    case Num(n) => Some(n)
    case Str(s) => interp.toNumeric(s)
  }

  // ---------------------------------------------------------------------------------------
  // The failing-row masks, one per rule type

  predicate IsNullAt(attr: string, row: Row) {
    Cell(row, attr).Null?
  }

  predicate IsBlankAt(interp: Interp, attr: string, row: Row) {
    Cell(row, attr).Null? || Strip(CellText(interp, Cell(row, attr))) == ""
  }

  /** `~isin(valid) & notna()`: a number never equals a listed string. */
  predicate IsOutsideSetAt(valid: seq<string>, attr: string, row: Row) {
    && !Cell(row, attr).Null?
    && !(Cell(row, attr).Str? && Cell(row, attr).s in valid)
  }

  /** A value that is not numeric compares false with both bounds. */
  predicate IsOutsideRangeAt(interp: Interp, low: real, high: real, attr: string, row: Row) {
    match Numeric(interp, Cell(row, attr))
    case Some(x) => x < low || x > high
    case None => false
  }

  /** The column `attr` of every row, in order. */
  function ColumnValues(f: Frame, attr: string): (vs: seq<Value>)
    ensures |vs| == |f.rows|
    ensures forall k :: 0 <= k < |f.rows| ==> vs[k] == Cell(f.rows[k], attr)
  {
    seq(|f.rows|, k requires 0 <= k < |f.rows| => Cell(f.rows[k], attr))
  }

  /** `duplicated(keep=False)`: the value occurs in more than one row, missing included. */
  predicate IsDuplicatedAt(f: Frame, attr: string, row: Row) {
    multiset(ColumnValues(f, attr))[Cell(row, attr)] > 1
  }

  /** `~astype(str).str.match(pattern, na=False)`. */
  predicate IsMismatchAt(interp: Interp, pattern: string, attr: string, row: Row) {
    !interp.matches(pattern, CellText(interp, Cell(row, attr)))
  }

  predicate IsLengthOutsideAt(interp: Interp, low: Option<nat>, high: Option<nat>, attr: string, row: Row) {
    && !Cell(row, attr).Null?
    && (|| (low.Some? && |CellText(interp, Cell(row, attr))| < low.value)
        || (high.Some? && |CellText(interp, Cell(row, attr))| > high.value))
  }

  predicate IsNotNumericAt(interp: Interp, attr: string, row: Row) {
    !Cell(row, attr).Null? && Numeric(interp, Cell(row, attr)).None?
  }

  /** The records `_execute_python_rule` returns for a rule whose attribute the sample has,
      and whether their column labels are all strings. */
  datatype Failing = Failing(frame: Frame, stringLabels: bool)

  const NoFailures := Failing(EmptyFrame, true)

  /** The rule types the validator checks itself rather than by `eval`. */
  const BuiltInTypes: set<string> :=
    {"NOT_NULL", "NOT_EMPTY", "VALUE_SET", "RANGE", "PRIMARY_KEY", "FORMAT_PATTERN", "LENGTH", "DATA_TYPE"}

  /** The failing-row condition of a rule type the validator checks itself, or nothing when
      the rule gives it no condition to check (no valid values, no pair of range bounds, no
      usable pattern, an expected type other than numeric). */
  function BuiltInMask(interp: Interp, df: Frame, rule: DQRule): Option<Row -> bool> {
    var attr := rule.attributeName;
    if rule.ruleType == "NOT_NULL" then
      Some(row => IsNullAt(attr, row))
    else if rule.ruleType == "NOT_EMPTY" then
      Some(row => IsBlankAt(interp, attr, row))
    else if rule.ruleType == "VALUE_SET" then
      var valid := ExtractValueSet(rule);
      if valid == [] then None else Some(row => IsOutsideSetAt(valid, attr, row))
    else if rule.ruleType == "RANGE" then
      var bounds := ExtractRange(rule.ruleExpression);
      if bounds.0.Some? && bounds.1.Some? then
        var low, high := bounds.0.value, bounds.1.value;
        Some(row => IsOutsideRangeAt(interp, low, high, attr, row))
      else None
    else if rule.ruleType == "PRIMARY_KEY" then
      Some(row => IsDuplicatedAt(df, attr, row))
    else if rule.ruleType == "FORMAT_PATTERN" then
      match ExtractPattern(rule)
      case None => None
      case Some(pattern) =>
        if interp.compiles(pattern) then Some(row => IsMismatchAt(interp, pattern, attr, row)) else None
    else if rule.ruleType == "LENGTH" then
      var bounds := ExtractLengthBounds(rule.ruleExpression);
      Some(row => IsLengthOutsideAt(interp, bounds.0, bounds.1, attr, row))
    else if rule.ruleType == "DATA_TYPE" && ExtractExpectedType(rule.ruleExpression) == "numeric" then
      Some(row => IsNotNumericAt(interp, attr, row))
    else None
  }

  /** `_execute_python_rule` for an attribute the sample has: the rows that meet the
      failing condition of a built-in rule type, or what `eval` of the pandas expression
      gives for any other type, with no rows where either has nothing to give. */
  function FailingRecords(interp: Interp, df: Frame, rule: DQRule): (r: Failing)
    ensures rule.ruleType in BuiltInTypes ==> r.stringLabels
    ensures rule.ruleType in BuiltInTypes ==>
      r.frame == EmptyFrame || (r.frame.columns == df.columns && IsSubsequence(r.frame.rows, df.rows))
  {
    if rule.ruleType in BuiltInTypes then
      match BuiltInMask(interp, df, rule)
      case None => NoFailures
      case Some(mask) =>
        FilterIsSubsequence(df.rows, mask);
        Failing(Select(df, mask), true)
    else
      match interp.evaluate(rule.ruleExpressionPython, df)
      case EvalFrame(g, labels) => Failing(g, labels)
      case _ => NoFailures
  }

  // ---------------------------------------------------------------------------------------
  // One rule

  /** The sample rows shown for a failing rule: at most five, reduced to the rule's column
      when the failing records have it. */
  function Preview(failures: Frame, attr: string): (rs: seq<Row>)
    ensures |rs| <= 5 && |rs| <= |failures.rows|
    ensures attr in failures.columns ==> forall k :: 0 <= k < |rs| ==> rs[k].Keys == {attr}
  {
    if |failures.rows| == 0 then []
    else if attr in failures.columns then HeadRecords(Frame({attr}, failures.rows), 5)
    else HeadRecords(failures, 5)
  }

  function NotFoundNote(attr: string): string {
    "Attribute '" + attr + "' not found in sample data"
  }

  /** `round(pass / total * 100, 2)`, or 0 for an empty sample. */
  function PassRate(pass: int, total: nat): real {
    if total > 0 then RoundTo(pass as real / total as real * 100.0, 2) else 0.0
  }

  /** `rate` is within half a hundredth of `pass / total * 100`, the bound rounding to two
      places keeps. */
  predicate RateNear(rate: real, pass: int, total: nat)
    requires total > 0
  {
    var x := pass as real / total as real * 100.0;
    x - 0.005 < rate <= x + 0.005
  }

  /** A pass count within the sample gives a rate in `[0, 100]`, all of the sample passing
      gives exactly 100, an empty sample gives 0, and otherwise the rate is the ratio times 100 within half a
      hundredth. */
  lemma PassRateBounds(pass: int, total: nat)
    requires 0 <= pass <= total
    ensures 0.0 <= PassRate(pass, total) <= 100.0
    ensures total == 0 ==> PassRate(pass, total) == 0.0
    ensures 0 < total && pass == total ==> PassRate(pass, total) == 100.0
    ensures 0 < total && pass == 0 ==> PassRate(pass, total) == 0.0
    ensures 0 < total ==> RateNear(PassRate(pass, total), pass, total)
  {
    if total > 0 {
      var x := pass as real / total as real * 100.0;
      RoundToError(x, 2);
      assert Pow10(2) == 100;
      if pass > 0 {
        PercentOf(pass, total);
      }
      RoundPercent(x, 2);
      if pass == total {
        assert pass as real / total as real == 1.0;
        assert x == 100.0;
        assert RoundedUnits(100.0, 2) == 10000;
      }
    }
  }

  /** The error result: nothing counted and the error message as the only sample row. */
  function ErrorResult(interp: Interp, ruleId: string): (r: ValidationResult)
    ensures r.ruleId == ruleId && r.passCount == 0 && r.failCount == 0 && r.passRate == 0.0
  {
    ValidationResult(ruleId, 0, 0, 0.0, [map["error" := Str(interp.errorText)]])
  }

  /** Building the result fails when records are shown whose column labels are not all
      strings, which the result's `Dict[str, Any]` rows do not admit. */
  predicate PreviewRejected(failing: Failing, attr: string) {
    && |failing.frame.rows| > 0
    && attr !in failing.frame.columns
    && !failing.stringLabels
  }

  /** `validate_rule`. */
  function ValidateRule(interp: Interp, sample: Frame, rule: DQRule): (r: ValidationResult)
    ensures r.ruleId == rule.ruleId
    ensures rule.attributeName !in sample.columns ==>
      && r.passCount == |sample.rows| && r.failCount == 0 && r.passRate == 100.0
      && r.sampleFailures == [map["note" := Str(NotFoundNote(rule.attributeName))]]
    ensures |r.sampleFailures| <= 5
  {
    var attr := rule.attributeName;
    if attr !in sample.columns then
      ValidationResult(rule.ruleId, |sample.rows|, 0, 100.0, [map["note" := Str(NotFoundNote(attr))]])
    else
      var failing := FailingRecords(interp, sample, rule);
      if PreviewRejected(failing, attr) then ErrorResult(interp, rule.ruleId)
      else
        var total := |sample.rows|;
        var failCount := |failing.frame.rows|;
        var passCount := total - failCount;
        ValidationResult(rule.ruleId, passCount, failCount, PassRate(passCount, total),
          Preview(failing.frame, attr))
  }

  /** For a rule type the validator checks itself, the counts split the sample: passing and
      failing records add up to the sample size, the failing records are sample rows in
      their order, and the rate is a percentage that is 100 when nothing fails and 0 on an
      empty sample; on a non-empty sample it is `pass / total * 100` rounded to two places,
      within half a hundredth. */
  lemma ValidateRuleCounts(interp: Interp, sample: Frame, rule: DQRule)
    requires rule.attributeName in sample.columns
    requires rule.ruleType in BuiltInTypes
    ensures var r := ValidateRule(interp, sample, rule);
      && 0 <= r.failCount <= |sample.rows|
      && r.passCount + r.failCount == |sample.rows|
      && 0.0 <= r.passRate <= 100.0
      && (|sample.rows| == 0 ==> r.passRate == 0.0)
      && (|sample.rows| > 0 && r.failCount == 0 ==> r.passRate == 100.0)
      && (r.failCount == 0 ==> r.sampleFailures == [])
      && (|sample.rows| > 0 ==> RateNear(r.passRate, r.passCount, |sample.rows|))
    ensures IsSubsequence(FailingRecords(interp, sample, rule).frame.rows, sample.rows)
  {
    var failing := FailingRecords(interp, sample, rule);
    var total := |sample.rows|;
    var failCount := |failing.frame.rows|;
    SubsequenceMembers(failing.frame.rows, sample.rows);
    assert !PreviewRejected(failing, rule.attributeName);
    assert ValidateRule(interp, sample, rule) == ValidationResult(rule.ruleId, total - failCount,
      failCount, PassRate(total - failCount, total), Preview(failing.frame, rule.attributeName));
    PassRateBounds(total - failCount, total);
  }

  /** A record missing its value fails NOT_EMPTY whenever it fails NOT_NULL: the NOT_NULL
      failures are a subsequence of the NOT_EMPTY failures. */
  lemma NotEmptyCoversNotNull(interp: Interp, sample: Frame, attr: string)
    ensures IsSubsequence(
      Select(sample, row => IsNullAt(attr, row)).rows,
      Select(sample, row => IsBlankAt(interp, attr, row)).rows)
  {
    FilterImplies(sample.rows, row => IsNullAt(attr, row), row => IsBlankAt(interp, attr, row));
  }

  /** A rule over the column `amount` with the given type and expression. */
  function AmountRule(ruleType: string, expression: string): DQRule {
    DQRule("DQ_AMOUNT_VAL_001", "amount", "Validity", ruleType, expression, "", "", "High",
      "", 5.0, "profiling", 0.9, [], [])
  }

  function AmountRow(v: Value): Row {
    map["amount" := v]
  }

  const BetweenExample: string := "amount BETWEEN 6 AND 800"

  lemma BetweenExampleWords()
    ensures var s := BetweenExample;
      && MatchesWordAt(s, 7, "between") && SkipSpaces(s, 14) == 15
      && SkipSpaces(s, 16) == 17 && MatchesWordAt(s, 17, "and") && SkipSpaces(s, 20) == 21
  {
    BetweenExampleBetween();
    BetweenExampleAnd();
  }

  lemma BetweenExampleBetween()
    ensures MatchesWordAt(BetweenExample, 7, "between") && SkipSpaces(BetweenExample, 14) == 15
  {
  }

  lemma BetweenExampleAnd()
    ensures SkipSpaces(BetweenExample, 16) == 17 && MatchesWordAt(BetweenExample, 17, "and")
    ensures SkipSpaces(BetweenExample, 20) == 21
  {
  }

  lemma BetweenExampleNumbers()
    ensures ScanNumber(BetweenExample, 15) == Some(Scanned(6.0, 16))
    ensures ScanNumber(BetweenExample, 21) == Some(Scanned(800.0, 24))
  {
    var s := BetweenExample;
    assert SkipDigits(s, 15) == 16 && s[15..16] == "6";
    assert SkipDigits(s, 21) == 24 && s[21..24] == "800";
    assert DigitsValue("800") == 800;
  }

  /** The clause in `amount BETWEEN 6 AND 800` starts at position 7 and reads 6 and 800. */
  lemma BetweenExampleClause()
    ensures BetweenAt(BetweenExample, 7) == Some((6.0, 800.0))
  {
    BetweenExampleWords();
    BetweenExampleNumbers();
  }

  /** No clause starts in `amount `, whose letters are not a `b`. */
  lemma BetweenExampleSkip()
    ensures forall q :: 0 <= q < 7 ==> BetweenAt(BetweenExample, q).None?
  {
    var s := BetweenExample;
    forall q | 0 <= q < 7 ensures BetweenAt(s, q).None? {
      assert !FoldsTo(s[q], "between"[0]);
    }
  }

  /** The range `amount BETWEEN 6 AND 800` reads as the bounds 6 and 800. */
  lemma BetweenExampleBounds()
    ensures ExtractRange(BetweenExample) == (Some(6.0), Some(800.0))
  {
    BetweenExampleSkip();
    LeftmostSkips(BetweenAt, BetweenExample, 0, 7);
    BetweenExampleClause();
  }

  const RangeSample := Frame({"amount"},
    [AmountRow(Num(5.0)), AmountRow(Num(6.0)), AmountRow(Num(800.0)), AmountRow(Num(801.0)), AmountRow(Str("abc"))])

  const RangeRule := AmountRule("RANGE", BetweenExample)

  lemma RangeSampleMask(interp: Interp)
    requires interp.toNumeric("abc").None?
    ensures var mask := BuiltInMask(interp, RangeSample, RangeRule);
      && mask.Some?
      && mask.value(AmountRow(Num(5.0))) && !mask.value(AmountRow(Num(6.0)))
      && !mask.value(AmountRow(Num(800.0))) && mask.value(AmountRow(Num(801.0)))
      && !mask.value(AmountRow(Str("abc")))
  {
    RangeMaskIs(interp);
  }

  /** The RANGE rule's failing condition is "outside `[6, 800]`". */
  lemma RangeMaskIs(interp: Interp)
    ensures BuiltInMask(interp, RangeSample, RangeRule).Some?
    ensures forall row :: BuiltInMask(interp, RangeSample, RangeRule).value(row) == IsOutsideRangeAt(interp, 6.0, 800.0, "amount", row)
  {
    BetweenExampleBounds();
    assert RangeRule.ruleType == "RANGE" && RangeRule.ruleExpression == BetweenExample;
  }

  lemma RangeSampleFailures(interp: Interp)
    requires interp.toNumeric("abc").None?
    ensures FailingRecords(interp, RangeSample, RangeRule).frame.rows == [AmountRow(Num(5.0)), AmountRow(Num(801.0))]
  {
    var rows := RangeSample.rows;
    RangeSampleMask(interp);
    var mask := BuiltInMask(interp, RangeSample, RangeRule).value;
    assert rows[..4] == rows[..3] + [rows[3]] && rows == rows[..4] + [rows[4]];
    assert Filter(rows[..3], mask) == [AmountRow(Num(5.0))] by {
      assert rows[..3] == rows[..2] + [rows[2]] && rows[..2] == rows[..1] + [rows[1]];
      assert Filter(rows[..1], mask) == [AmountRow(Num(5.0))];
    }
    assert Filter(rows[..4], mask) == [AmountRow(Num(5.0)), AmountRow(Num(801.0))];
  }

  lemma ThreeOfFive()
    ensures PassRate(3, 5) == 60.0
  {
    assert 3.0 / 5.0 * 100.0 == 60.0;
    assert RoundedUnits(60.0, 2) == 6000;
  }

  /** A RANGE rule `BETWEEN 6 AND 800` over 5, 6, 800, 801 and "abc" fails exactly the
      records holding 5 and 801, so three of five pass: both bounds are inclusive and a
      value that is not numeric is never out of range. */
  lemma RangeExample(interp: Interp)
    requires interp.toNumeric("abc").None?
    ensures FailingRecords(interp, RangeSample, RangeRule).frame.rows == [AmountRow(Num(5.0)), AmountRow(Num(801.0))]
    ensures ValidateRule(interp, RangeSample, RangeRule).failCount == 2
    ensures ValidateRule(interp, RangeSample, RangeRule).passCount == 3
    ensures ValidateRule(interp, RangeSample, RangeRule).passRate == 60.0
  {
    RangeSampleFailures(interp);
    ThreeOfFive();
  }

  const KeySample := Frame({"amount"}, [AmountRow(Str("x1")), AmountRow(Str("x1")), AmountRow(Str("x2"))])

  lemma KeySampleCounts()
    ensures IsDuplicatedAt(KeySample, "amount", AmountRow(Str("x1")))
    ensures !IsDuplicatedAt(KeySample, "amount", AmountRow(Str("x2")))
  {
    var column := ColumnValues(KeySample, "amount");
    assert column == [Str("x1"), Str("x1"), Str("x2")];
    assert multiset(column)[Str("x1")] == 2 && multiset(column)[Str("x2")] == 1;
  }

  const KeyRule := AmountRule("PRIMARY_KEY", "amount IS UNIQUE")

  lemma KeySampleFailures(interp: Interp)
    ensures FailingRecords(interp, KeySample, KeyRule).frame.rows == [AmountRow(Str("x1")), AmountRow(Str("x1"))]
  {
    var x1, x2 := AmountRow(Str("x1")), AmountRow(Str("x2"));
    var mask := BuiltInMask(interp, KeySample, KeyRule).value;
    KeyMaskIs(interp);
    KeySampleCounts();
    assert KeySample.rows == [x1] + [x1] + [x2];
    FilterSnoc([], x1, mask);
    FilterSnoc([x1], x1, mask);
    FilterSnoc([x1] + [x1], x2, mask);
  }

  /** The PRIMARY_KEY rule's failing condition is "the value is repeated in the sample". */
  lemma KeyMaskIs(interp: Interp)
    ensures BuiltInMask(interp, KeySample, KeyRule).Some?
    ensures forall row :: BuiltInMask(interp, KeySample, KeyRule).value(row) == IsDuplicatedAt(KeySample, "amount", row)
  {
  }

  /** A PRIMARY_KEY rule over "x1", "x1", "x2" fails both records holding the repeated
      value and passes the unique one. */
  lemma PrimaryKeyExample(interp: Interp)
    ensures FailingRecords(interp, KeySample, KeyRule).frame.rows == [AmountRow(Str("x1")), AmountRow(Str("x1"))]
    ensures ValidateRule(interp, KeySample, KeyRule).failCount == 2
    ensures ValidateRule(interp, KeySample, KeyRule).passCount == 1
  {
    KeySampleFailures(interp);
  }

  // ---------------------------------------------------------------------------------------
  // All rules

  /** `validate_all_rules`: one result per rule, in the rules' order. */
  method ValidateAllRules(interp: Interp, sample: Frame, rules: seq<DQRule>) returns (results: seq<ValidationResult>)
    ensures |results| == |rules|
    ensures forall k :: 0 <= k < |rules| ==> results[k] == ValidateRule(interp, sample, rules[k])
    ensures forall k :: 0 <= k < |rules| ==> results[k].ruleId == rules[k].ruleId
  {
    results := [];
    for i := 0 to |rules|
      invariant |results| == i
      invariant forall k :: 0 <= k < i ==> results[k] == ValidateRule(interp, sample, rules[k])
    {
      var result := ValidateRule(interp, sample, rules[i]);
      results := results + [result];
    }
  }

  // ---------------------------------------------------------------------------------------
  // Thresholds

  /** `suggest_threshold_adjustment`: loosen to the failure rate plus ten percent when it
      exceeds one and a half times the threshold, tighten to one and a half times the rate
      when it is non-zero and under half the threshold, and otherwise keep the threshold. */
  function SuggestThreshold(threshold: real, passRate: real): (t: real)
    ensures t != threshold ==>
      var failRate := 100.0 - passRate;
      failRate > threshold * 1.5 || (0.0 < failRate < threshold * 0.5)
  {
    var failRate := 100.0 - passRate;
    if failRate > threshold * 1.5 then Min(RoundTo(failRate * 1.1, 1), 100.0)
    else if failRate < threshold * 0.5 && failRate > 0.0 then Max(RoundTo(failRate * 1.5, 1), 0.1)
    else threshold
  }

  /** Rounding keeps a non-negative value non-negative. */
  lemma RoundNonNegative(x: real, places: nat)
    requires 0.0 <= x
    ensures 0.0 <= RoundTo(x, places)
  {
    var p := Pow10(places) as real;
    MulPositiveLe(0.0, x, p);
    assert RoundedUnits(x, places) >= 0;
    DivMonotone(0.0, RoundedUnits(x, places) as real, p);
  }

  /** A threshold in `[0, 100]` is replaced by one in `[0, 100]`, whatever the pass rate; a
      tightened threshold is at least 0.1. */
  lemma SuggestThresholdRange(threshold: real, passRate: real)
    requires 0.0 <= threshold <= 100.0
    ensures 0.0 <= SuggestThreshold(threshold, passRate) <= 100.0
    ensures var failRate := 100.0 - passRate;
      0.0 < failRate < threshold * 0.5 ==> 0.1 <= SuggestThreshold(threshold, passRate)
  {
    var failRate := 100.0 - passRate;
    if failRate > threshold * 1.5 {
      RoundNonNegative(failRate * 1.1, 1);
    } else if failRate < threshold * 0.5 && failRate > 0.0 {
      RoundPercent(failRate * 1.5, 1);
    }
  }

  /** A tightened threshold still admits the observed failure rate, and a loosened one does
      too once the rate is at least half a percent. */
  lemma SuggestAdmitsFailRate(threshold: real, passRate: real)
    requires 0.0 <= threshold
    requires 100.0 - passRate <= 100.0
    ensures var failRate := 100.0 - passRate;
      && (0.0 < failRate < threshold * 0.5 ==> failRate <= SuggestThreshold(threshold, passRate))
      && (failRate > threshold * 1.5 && failRate >= 0.5 ==> failRate <= SuggestThreshold(threshold, passRate))
  {
    var failRate := 100.0 - passRate;
    if failRate > threshold * 1.5 {
      RoundToError(failRate * 1.1, 1);
      assert Pow10(1) == 10;
    } else if 0.0 < failRate < threshold * 0.5 {
      RoundToError(failRate * 1.5, 1);
      assert Pow10(1) == 10;
    }
  }

  /** A loosened threshold is the failure rate plus ten percent, capped at 100, and a
      tightened one is one and a half times the rate, at least 0.1, both up to the rounding
      to one decimal; a tightened threshold of at least 0.2 goes strictly down. */
  lemma SuggestThresholdNear(threshold: real, passRate: real)
    ensures var failRate := 100.0 - passRate;
      var target := Min(failRate * 1.1, 100.0);
      failRate > threshold * 1.5 ==>
        target - 0.05 <= SuggestThreshold(threshold, passRate) <= target + 0.05
    ensures var failRate := 100.0 - passRate;
      var target := Max(failRate * 1.5, 0.1);
      0.0 < failRate < threshold * 0.5 ==>
        target - 0.05 <= SuggestThreshold(threshold, passRate) <= target + 0.05
    ensures var failRate := 100.0 - passRate;
      0.2 <= threshold && 0.0 < failRate < threshold * 0.5 ==>
        SuggestThreshold(threshold, passRate) < threshold
  {
    var failRate := 100.0 - passRate;
    assert Pow10(1) == 10;
    if failRate > threshold * 1.5 {
      RoundToError(failRate * 1.1, 1);
    } else if 0.0 < failRate < threshold * 0.5 {
      RoundToError(failRate * 1.5, 1);
    }
  }

  /** A failure rate within half and one and a half times the threshold leaves it as is. */
  lemma SuggestKeepsMatchingThreshold(threshold: real, passRate: real)
    requires threshold * 0.5 <= 100.0 - passRate <= threshold * 1.5
    ensures SuggestThreshold(threshold, passRate) == threshold
  {
  }

  /** The note `refine_rules` appends to `derived_from`. */
  function AdjustmentNote(interp: Interp, threshold: real): string {
    " (threshold adjusted from " + interp.show(Num(threshold)) + "%)"
  }

  /** The rule with a new threshold and the note naming the old one. */
  function Adjusted(interp: Interp, rule: DQRule, threshold: real): DQRule {
    rule.(thresholdPercent := threshold,
          derivedFrom := rule.derivedFrom + AdjustmentNote(interp, rule.thresholdPercent))
  }

  /** `DQRule(**d)` of the rule's `to_dict()` with the threshold replaced and the note
      appended, as `refine_rules` builds it. */
  function Rebuilt(interp: Interp, rule: DQRule, threshold: real): Result<DQRule> {
    var d := ToDict(rule);
    RuleFromDict(d["threshold_percent" := JNum(threshold)]
                  ["derived_from" := JStr(rule.derivedFrom + AdjustmentNote(interp, rule.thresholdPercent))])
  }

  /** Rebuilding a valid rule through its dictionary with a threshold in `[0, 100]`
      succeeds and gives the adjusted rule; with a threshold outside it, it fails. */
  lemma RebuiltIsAdjusted(interp: Interp, rule: DQRule, threshold: real)
    requires rule.Valid()
    ensures 0.0 <= threshold <= 100.0 ==> Rebuilt(interp, rule, threshold) == Success(Adjusted(interp, rule, threshold))
    ensures !(0.0 <= threshold <= 100.0) ==> Rebuilt(interp, rule, threshold).Failure?
  {
    var adjusted := Adjusted(interp, rule, threshold);
    var d := ToDict(rule);
    assert ToDict(adjusted) == d["threshold_percent" := JNum(threshold)]
      ["derived_from" := JStr(rule.derivedFrom + AdjustmentNote(interp, rule.thresholdPercent))];
    if 0.0 <= threshold <= 100.0 {
      ToDictRoundTrip(adjusted);
    }
  }

  /** One rule after refinement: adjusted when its result suggests another threshold, and
      otherwise the rule itself. The rules `refine_rules` receives are model instances, so
      they are valid, and the adjusted rule is what rebuilding it gives
      (`RebuiltIsAdjusted`). */
  function RefinedRule(interp: Interp, rule: DQRule, results: map<string, ValidationResult>): (r: DQRule)
    requires rule.Valid()
    ensures r.Valid()
    ensures r == rule.(thresholdPercent := r.thresholdPercent, derivedFrom := r.derivedFrom)
    ensures rule.ruleId !in results ==> r == rule
    ensures rule.ruleId in results ==>
      r.thresholdPercent == SuggestThreshold(rule.thresholdPercent, results[rule.ruleId].passRate)
    ensures r.thresholdPercent != rule.thresholdPercent ==> Success(r) == Rebuilt(interp, rule, r.thresholdPercent)
  {
    if rule.ruleId in results then
      var suggested := SuggestThreshold(rule.thresholdPercent, results[rule.ruleId].passRate);
      SuggestThresholdRange(rule.thresholdPercent, results[rule.ruleId].passRate);
      RebuiltIsAdjusted(interp, rule, suggested);
      if suggested != rule.thresholdPercent then Adjusted(interp, rule, suggested) else rule
    else rule
  }

  /** `refine_rules`: every rule in order, each refined on its own. */
  method RefineRules(interp: Interp, rules: seq<DQRule>, results: map<string, ValidationResult>)
    returns (refined: seq<DQRule>)
    requires forall k :: 0 <= k < |rules| ==> rules[k].Valid()
    ensures |refined| == |rules|
    ensures forall k :: 0 <= k < |rules| ==> refined[k] == RefinedRule(interp, rules[k], results)
    ensures forall k :: 0 <= k < |rules| ==>
      && refined[k].Valid()
      && refined[k].ruleId == rules[k].ruleId
      && refined[k].ruleType == rules[k].ruleType
      && refined[k].ruleExpression == rules[k].ruleExpression
  {
    refined := [];
    for i := 0 to |rules|
      invariant |refined| == i
      invariant forall k :: 0 <= k < i ==> refined[k] == RefinedRule(interp, rules[k], results)
    {
      refined := refined + [RefinedRule(interp, rules[i], results)];
    }
  }
}
