/** The bounds, value sets, patterns and expected types that the validation agent reads out
    of a rule's expressions with regular-expression searches.  Every search is written out as
    a deterministic scan: `AtX(s, p)` says what the pattern matches when the match starts at
    `p`, and `Leftmost` picks the first start position, as `re.search` does. */
module RuleExpressions {
  import opened Wrappers
  import opened Text
  import opened Numbers
  import opened DqRule

  /** `re.search`: the match of `at` at the smallest start position from `p` on. */
  function Leftmost<T>(at: (string, nat) -> Option<T>, s: string, p: nat): Option<T>
    decreases |s| + 1 - p
  {
    if p > |s| then None
    else if at(s, p).Some? then at(s, p)
    else Leftmost(at, s, p + 1)
  }

  /** A search succeeds exactly at its first matching start position. */
  lemma {:induction false} LeftmostShape<T>(at: (string, nat) -> Option<T>, s: string, p: nat)
    ensures Leftmost(at, s, p).Some? ==>
      exists q :: p <= q <= |s| && at(s, q) == Leftmost(at, s, p)
                  && forall k :: p <= k < q ==> at(s, k).None?
    ensures Leftmost(at, s, p).None? ==> forall q :: p <= q <= |s| ==> at(s, q).None?
    decreases |s| + 1 - p
  {
    if p <= |s| && at(s, p).None? {
      LeftmostShape(at, s, p + 1);
      if Leftmost(at, s, p).Some? {
        var q :| p + 1 <= q <= |s| && at(s, q) == Leftmost(at, s, p + 1)
                  && forall k :: p + 1 <= k < q ==> at(s, k).None?;
        assert forall k :: p <= k < q ==> at(s, k).None?;
      }
    }
  }

  /** Positions where nothing matches can be skipped. */
  lemma {:induction false} LeftmostSkips<T>(at: (string, nat) -> Option<T>, s: string, p: nat, m: nat)
    requires p <= m
    requires forall q :: p <= q < m ==> at(s, q).None?
    ensures Leftmost(at, s, p) == Leftmost(at, s, m)
    decreases m - p
  {
    if p < m {
      LeftmostSkips(at, s, p + 1, m);
    }
  }

  /** The first index from `i` on whose character satisfies `stop`. */
  function FirstWhere(s: string, i: nat, stop: char -> bool): (r: Option<nat>)
    ensures r.Some? ==> i <= r.value < |s| && stop(s[r.value])
    ensures r.Some? ==> forall k :: i <= k < r.value ==> !stop(s[k])
    ensures r.None? ==> forall k :: i <= k < |s| ==> !stop(s[k])
    decreases |s| - i
  {
    if i >= |s| then None
    else if stop(s[i]) then Some(i)
    else FirstWhere(s, i + 1, stop)
  }

  predicate IsCloseParen(c: char) { c == ')' }

  predicate IsQuote(c: char) { c == '\'' || c == '"' }

  // ---------------------------------------------------------------------------------------
  // Numbers: `\d+\.?\d*` and `\d+`

  datatype Scanned = Scanned(value: real, end: nat)

  /** The greedy match of `\d+\.?\d*` at `i` and the value `float()` gives it. */
  function ScanNumber(s: string, i: nat): (r: Option<Scanned>)
    ensures r.Some? <==> i < |s| && IsDigit(s[i])
    ensures r.Some? ==> i < r.value.end <= |s| && 0.0 <= r.value.value
    ensures r.Some? && r.value.end < |s| ==> !IsDigit(s[r.value.end])
  {
    if i < |s| && IsDigit(s[i]) then
      var a := SkipDigits(s, i);
      if a < |s| && s[a] == '.' then
        var b := SkipDigits(s, a + 1);
        Some(Scanned(DecimalValue(s[i..a], s[a + 1..b]), b))
      else
        Some(Scanned(DigitsValue(s[i..a]) as real, a))
    else None
  }

  /** The greedy match of `\d+` at `i` and the value `int()` gives it. */
  function ScanInt(s: string, i: nat): (r: Option<(nat, nat)>)
    ensures r.Some? <==> i < |s| && IsDigit(s[i])
    ensures r.Some? ==> i < r.value.1 <= |s| && AllDigits(s[i..r.value.1])
    ensures r.Some? && r.value.1 < |s| ==> !IsDigit(s[r.value.1])
  {
    if i < |s| && IsDigit(s[i]) then
      var a := SkipDigits(s, i);
      Some((DigitsValue(s[i..a]), a))
    else None
  }

  /** The matched text of a number is one that `float()` accepts, with the scanned value. */
  lemma ScanNumberParses(s: string, i: nat)
    requires ScanNumber(s, i).Some?
    ensures ParseUnsigned(s[i..ScanNumber(s, i).value.end]) == Some(ScanNumber(s, i).value.value)
  {
    var a := SkipDigits(s, i);
    if a < |s| && s[a] == '.' {
      var b := SkipDigits(s, a + 1);
      assert ScanNumber(s, i) == Some(Scanned(DecimalValue(s[i..a], s[a + 1..b]), b));
      assert s[i..b] == s[i..a] + "." + s[a + 1..b];
      ParsePointText(s[i..a], s[a + 1..b]);
    } else {
      assert ScanNumber(s, i) == Some(Scanned(DigitsValue(s[i..a]) as real, a));
      ParseDigitsText(s[i..a]);
    }
  }

  // ---------------------------------------------------------------------------------------
  // Value sets: `IN\s*\(([^)]+)\)` and the quoted or numeric tokens inside it

  /** `IN\s*\(([^)]+)\)` at `p`, ignoring case: the text between the parentheses. */
  function InGroupAt(s: string, p: nat): (r: Option<string>)
    ensures r.Some? ==> r.value != [] && ')' !in r.value
  {
    if MatchesWordAt(s, p, "in") then
      var q := SkipSpaces(s, p + 2);
      if q < |s| && s[q] == '(' then
        match FirstWhere(s, q + 1, IsCloseParen)
        case Some(j) =>
          if j > q + 1 then
            Some(s[q + 1..j])
          else None
        case None => None
      else None
    else None
  }

  /** The non-empty tokens `re.findall(r"'([^']*)'|\"([^\"]*)\"|(\d+)", v[i..])` yields; the
      empty quoted tokens are the ones `any(v)` drops. */
  function Tokens(v: string, i: nat): (r: seq<string>)
    ensures forall k :: 0 <= k < |r| ==> r[k] != []
    decreases |v| - i
  {
    if i >= |v| then []
    else if IsQuote(v[i]) && FirstWhere(v, i + 1, c => c == v[i]).Some? then
      var j := FirstWhere(v, i + 1, c => c == v[i]).value;
      (if j > i + 1 then [v[i + 1..j]] else []) + Tokens(v, j + 1)
    else if IsDigit(v[i]) then
      var j := SkipDigits(v, i);
      [v[i..j]] + Tokens(v, j)
    else Tokens(v, i + 1)
  }

  /** Every token is a piece of the scanned text. */
  lemma {:induction false} TokensInfix(v: string, i: nat)
    ensures forall k :: 0 <= k < |Tokens(v, i)| ==> IsInfix(Tokens(v, i)[k], v)
    decreases |v| - i
  {
    if i < |v| {
      if IsQuote(v[i]) && FirstWhere(v, i + 1, c => c == v[i]).Some? {
        var j := FirstWhere(v, i + 1, c => c == v[i]).value;
        TokensInfix(v, j + 1);
        if j > i + 1 {
          assert OccursAt(v, v[i + 1..j], i + 1);
        }
      } else if IsDigit(v[i]) {
        var j := SkipDigits(v, i);
        TokensInfix(v, j);
        assert OccursAt(v, v[i..j], i);
      } else {
        TokensInfix(v, i + 1);
      }
    }
  }

  /** A quote closed by the next copy of itself yields the text between them, unless that
      text is empty. */
  lemma TokensQuoted(v: string, i: nat, j: nat)
    requires i < j < |v| && IsQuote(v[i]) && v[j] == v[i]
    requires forall k :: i < k < j ==> v[k] != v[i]
    ensures Tokens(v, i) == (if j > i + 1 then [v[i + 1..j]] else []) + Tokens(v, j + 1)
  {
    var w := FirstWhere(v, i + 1, c => c == v[i]);
    assert w.Some?;
    assert !(w.value < j) && !(w.value > j);
  }

  /** A maximal run of digits is one token. */
  lemma TokensDigits(v: string, i: nat, j: nat)
    requires i < j <= |v| && forall k :: i <= k < j ==> IsDigit(v[k])
    requires j < |v| ==> !IsDigit(v[j])
    ensures Tokens(v, i) == [v[i..j]] + Tokens(v, j)
  {
  }

  /** Any other character, and a quote that is never closed, is passed over. */
  lemma TokensOther(v: string, i: nat)
    requires i < |v| && !IsDigit(v[i])
    requires IsQuote(v[i]) ==> forall k :: i < k < |v| ==> v[k] != v[i]
    ensures Tokens(v, i) == Tokens(v, i + 1)
  {
    if IsQuote(v[i]) {
      var w := FirstWhere(v, i + 1, c => c == v[i]);
      assert w.None?;
    }
  }

  /** The group of `status IN ('A', "B", 3)`. */
  const ExampleGroup: string := "'A', \"B\", 3"

  /** The group of `status IN ('A', "B", 3)` reads as the three values. */
  lemma TokensExample(v: string)
    requires v == ExampleGroup
    ensures Tokens(v, 0) == ["A", "B", "3"]
  {
    TokensExampleFirst(v);
    TokensExampleSecond(v);
  }

  lemma TokensExampleFirst(v: string)
    requires v == ExampleGroup
    ensures Tokens(v, 0) == ["A"] + Tokens(v, 3)
  {
    TokensQuoted(v, 0, 2);
    assert v[1..2] == "A";
  }

  lemma TokensExampleSecond(v: string)
    requires v == ExampleGroup
    ensures Tokens(v, 3) == ["B", "3"]
  {
    TokensExampleTail(v);
    TokensOther(v, 4);
    TokensOther(v, 3);
  }

  lemma TokensExampleTail(v: string)
    requires v == ExampleGroup
    ensures Tokens(v, 5) == ["B", "3"]
  {
    TokensExampleLast(v);
    TokensQuoted(v, 5, 7);
    assert v[6..7] == "B";
  }

  lemma TokensExampleLast(v: string)
    requires v == ExampleGroup
    ensures Tokens(v, 8) == ["3"]
  {
    TokensOther(v, 8);
    TokensOther(v, 9);
    TokensDigits(v, 10, 11);
    assert v[10..11] == "3";
  }

  /** `_extract_value_set`: the rule's own valid values when it lists some, else the tokens
      inside the first `IN (...)` of its expression, else nothing. */
  function ExtractValueSet(rule: DQRule): (r: seq<string>)
    ensures rule.sampleValidValues != [] ==> r == rule.sampleValidValues
    ensures rule.sampleValidValues == [] ==> forall k :: 0 <= k < |r| ==> r[k] != []
    ensures rule.sampleValidValues == [] && Leftmost(InGroupAt, rule.ruleExpression, 0).None? ==> r == []
    ensures rule.sampleValidValues == [] && Leftmost(InGroupAt, rule.ruleExpression, 0).Some? ==>
      r == Tokens(Leftmost(InGroupAt, rule.ruleExpression, 0).value, 0)
  {
    if rule.sampleValidValues != [] then rule.sampleValidValues
    else match Leftmost(InGroupAt, rule.ruleExpression, 0)
      case Some(g) => Tokens(g, 0)
      case None => []
  }

  // ---------------------------------------------------------------------------------------
  // Ranges: `BETWEEN\s+n\s+AND\s+n` (ignoring case), else `>=?\s*n` and `<=?\s*n`

  /** `BETWEEN\s+(\d+\.?\d*)\s+AND\s+(\d+\.?\d*)` at `p`, ignoring case. */
  function BetweenAt(s: string, p: nat): (r: Option<(real, real)>)
    ensures r.Some? ==> 0.0 <= r.value.0 && 0.0 <= r.value.1
  {
    if MatchesWordAt(s, p, "between") then
      var a := SkipSpaces(s, p + 7);
      if a > p + 7 then
        match ScanNumber(s, a)
        case Some(low) =>
          var b := SkipSpaces(s, low.end);
          if b > low.end && MatchesWordAt(s, b, "and") then
            var c := SkipSpaces(s, b + 3);
            if c > b + 3 then
              match ScanNumber(s, c)
              case Some(high) => Some((low.value, high.value))
              case None => None
            else None
          else None
        case None => None
      else None
    else None
  }

  /** `op=?\s*(\d+\.?\d*)` at `p`, case-sensitive. */
  function BoundAt(s: string, p: nat, op: char): (r: Option<real>)
    ensures r.Some? ==> p < |s| && s[p] == op && 0.0 <= r.value
  {
    if p < |s| && s[p] == op then
      var q := if p + 1 < |s| && s[p + 1] == '=' then p + 2 else p + 1;
      match ScanNumber(s, SkipSpaces(s, q))
      case Some(n) => Some(n.value)
      case None => None
    else None
  }

  function LowerBoundAt(s: string, p: nat): Option<real> { BoundAt(s, p, '>') }

  function UpperBoundAt(s: string, p: nat): Option<real> { BoundAt(s, p, '<') }

  /** `_extract_range`: both bounds of the first BETWEEN clause, else the first number after a
      `>` and the first after a `<`, each on its own. */
  function ExtractRange(expr: string): (r: (Option<real>, Option<real>))
    ensures Leftmost(BetweenAt, expr, 0).Some? ==>
      r == (Some(Leftmost(BetweenAt, expr, 0).value.0), Some(Leftmost(BetweenAt, expr, 0).value.1))
    ensures Leftmost(BetweenAt, expr, 0).None? ==>
      r == (Leftmost(LowerBoundAt, expr, 0), Leftmost(UpperBoundAt, expr, 0))
    ensures r.0.Some? ==> 0.0 <= r.0.value
    ensures r.1.Some? ==> 0.0 <= r.1.value
  {
    LeftmostShape(BetweenAt, expr, 0);
    LeftmostShape(LowerBoundAt, expr, 0);
    LeftmostShape(UpperBoundAt, expr, 0);
    match Leftmost(BetweenAt, expr, 0)
    case Some(b) => (Some(b.0), Some(b.1))
    case None => (Leftmost(LowerBoundAt, expr, 0), Leftmost(UpperBoundAt, expr, 0))
  }

  /** Without a `>` there is no lower bound from the comparison form, and without a `<` no
      upper bound. */
  lemma ComparisonNeedsOperator(expr: string)
    requires Leftmost(BetweenAt, expr, 0).None?
    ensures '>' !in expr ==> ExtractRange(expr).0 == None
    ensures '<' !in expr ==> ExtractRange(expr).1 == None
  {
    LeftmostShape(LowerBoundAt, expr, 0);
    LeftmostShape(UpperBoundAt, expr, 0);
  }

  // ---------------------------------------------------------------------------------------
  // Patterns: `(?:MATCHES|REGEXP)\s*['"]([^'"]+)['"]`, else `\.str\.match\(r?['"]([^'"]+)['"]`

  /** `['"]([^'"]+)['"]` at `q`: the text up to the next quote of either kind. */
  function QuotedAt(s: string, q: nat): (r: Option<string>)
    ensures r.Some? ==> r.value != [] && forall k :: 0 <= k < |r.value| ==> !IsQuote(r.value[k])
  {
    if q < |s| && IsQuote(s[q]) then
      match FirstWhere(s, q + 1, IsQuote)
      case Some(j) =>
        if j > q + 1 then
          Some(s[q + 1..j])
        else None
      case None => None
    else None
  }

  /** The SQL form at `p`, ignoring case. */
  function MatchesClauseAt(s: string, p: nat): (r: Option<string>)
    ensures r.Some? ==> r.value != [] && forall k :: 0 <= k < |r.value| ==> !IsQuote(r.value[k])
  {
    if MatchesWordAt(s, p, "matches") then QuotedAt(s, SkipSpaces(s, p + 7))
    else if MatchesWordAt(s, p, "regexp") then QuotedAt(s, SkipSpaces(s, p + 6))
    else None
  }

  /** The pandas form at `p`, case-sensitive, with an optional raw-string prefix. */
  function StrMatchAt(s: string, p: nat): (r: Option<string>)
    ensures r.Some? ==> r.value != [] && forall k :: 0 <= k < |r.value| ==> !IsQuote(r.value[k])
  {
    if OccursAt(s, ".str.match(", p) then
      var q := p + 11;
      if q < |s| && s[q] == 'r' then QuotedAt(s, q + 1) else QuotedAt(s, q)
    else None
  }

  /** `_extract_pattern`: the quoted pattern after the first MATCHES or REGEXP of the
      expression, else the one inside the first `.str.match(` of the pandas expression. */
  function ExtractPattern(rule: DQRule): (r: Option<string>)
    ensures r.Some? ==> r.value != [] && forall k :: 0 <= k < |r.value| ==> !IsQuote(r.value[k])
    ensures Leftmost(MatchesClauseAt, rule.ruleExpression, 0).Some? ==>
      r == Leftmost(MatchesClauseAt, rule.ruleExpression, 0)
    ensures Leftmost(MatchesClauseAt, rule.ruleExpression, 0).None? ==>
      r == Leftmost(StrMatchAt, rule.ruleExpressionPython, 0)
  {
    LeftmostShape(MatchesClauseAt, rule.ruleExpression, 0);
    LeftmostShape(StrMatchAt, rule.ruleExpressionPython, 0);
    match Leftmost(MatchesClauseAt, rule.ruleExpression, 0)
    case Some(pat) => Some(pat)
    case None => Leftmost(StrMatchAt, rule.ruleExpressionPython, 0)
  }

  // ---------------------------------------------------------------------------------------
  // Length bounds: `LENGTH.*?` followed by a BETWEEN clause or a comparison, ignoring case

  /** `BETWEEN\s+(\d+)\s+AND\s+(\d+)` at `q`, ignoring case. */
  function LengthBetweenTail(s: string, q: nat): Option<(nat, nat)> {
    if MatchesWordAt(s, q, "between") then
      var a := SkipSpaces(s, q + 7);
      if a > q + 7 then
        match ScanInt(s, a)
        case Some(low) =>
          var b := SkipSpaces(s, low.1);
          if b > low.1 && MatchesWordAt(s, b, "and") then
            var c := SkipSpaces(s, b + 3);
            if c > b + 3 then
              match ScanInt(s, c)
              case Some(high) => Some((low.0, high.0))
              case None => None
            else None
          else None
        case None => None
      else None
    else None
  }

  /** `op=?\s*(\d+)` at `q`. */
  function LengthBoundTail(s: string, q: nat, op: char): (r: Option<nat>)
    ensures r.Some? ==> q < |s| && s[q] == op
  {
    if q < |s| && s[q] == op then
      var e := if q + 1 < |s| && s[q + 1] == '=' then q + 2 else q + 1;
      match ScanInt(s, SkipSpaces(s, e))
      case Some(n) => Some(n.0)
      case None => None
    else None
  }

  /** The lazy gap `.*?`: the first end `g` of a newline-free gap from which `tail` matches. */
  function LazyGap<T>(tail: (string, nat) -> Option<T>, s: string, g: nat): (r: Option<T>)
    decreases |s| + 1 - g
  {
    if g > |s| then None
    else if tail(s, g).Some? then tail(s, g)
    else if g < |s| && s[g] != '\n' then LazyGap(tail, s, g + 1)
    else None
  }

  /** A lazy gap never crosses a newline: when it ends at a match, the gap before it is free
      of line breaks and nothing matched earlier. */
  lemma {:induction false} LazyGapShape<T>(tail: (string, nat) -> Option<T>, s: string, g: nat)
    ensures LazyGap(tail, s, g).Some? ==>
      exists e :: g <= e <= |s| && tail(s, e) == LazyGap(tail, s, g)
                  && forall k :: g <= k < e ==> s[k] != '\n' && tail(s, k).None?
    decreases |s| + 1 - g
  {
    if g <= |s| && tail(s, g).None? && g < |s| && s[g] != '\n' {
      LazyGapShape(tail, s, g + 1);
      if LazyGap(tail, s, g).Some? {
        var e :| g + 1 <= e <= |s| && tail(s, e) == LazyGap(tail, s, g + 1)
                  && forall k :: g + 1 <= k < e ==> s[k] != '\n' && tail(s, k).None?;
        assert forall k :: g <= k < e ==> s[k] != '\n' && tail(s, k).None?;
      }
    }
  }

  function LengthBetweenAt(s: string, p: nat): Option<(nat, nat)> {
    if MatchesWordAt(s, p, "length") then LazyGap(LengthBetweenTail, s, p + 6) else None
  }

  function LengthAtLeastTail(s: string, q: nat): Option<nat> { LengthBoundTail(s, q, '>') }

  function LengthAtMostTail(s: string, q: nat): Option<nat> { LengthBoundTail(s, q, '<') }

  function LengthAtLeastAt(s: string, p: nat): Option<nat> {
    if MatchesWordAt(s, p, "length") then LazyGap(LengthAtLeastTail, s, p + 6) else None
  }

  function LengthAtMostAt(s: string, p: nat): Option<nat> {
    if MatchesWordAt(s, p, "length") then LazyGap(LengthAtMostTail, s, p + 6) else None
  }

  /** `_extract_length_bounds`: both bounds of the first `LENGTH ... BETWEEN` clause, else the
      first `>`-bound and the first `<`-bound that follow a LENGTH on the same line. */
  function ExtractLengthBounds(expr: string): (r: (Option<nat>, Option<nat>))
    ensures Leftmost(LengthBetweenAt, expr, 0).Some? ==>
      r == (Some(Leftmost(LengthBetweenAt, expr, 0).value.0), Some(Leftmost(LengthBetweenAt, expr, 0).value.1))
    ensures Leftmost(LengthBetweenAt, expr, 0).None? ==>
      r == (Leftmost(LengthAtLeastAt, expr, 0), Leftmost(LengthAtMostAt, expr, 0))
  {
    match Leftmost(LengthBetweenAt, expr, 0)
    case Some(b) => (Some(b.0), Some(b.1))
    case None => (Leftmost(LengthAtLeastAt, expr, 0), Leftmost(LengthAtMostAt, expr, 0))
  }

  /** An expression that never says LENGTH yields no length bounds at all. */
  lemma NoLengthNoBounds(expr: string)
    requires forall p :: 0 <= p <= |expr| ==> !MatchesWordAt(expr, p, "length")
    ensures ExtractLengthBounds(expr) == (None, None)
  {
    LeftmostShape(LengthBetweenAt, expr, 0);
    LeftmostShape(LengthAtLeastAt, expr, 0);
    LeftmostShape(LengthAtMostAt, expr, 0);
  }

  // ---------------------------------------------------------------------------------------
  // Expected types

  /** `_extract_expected_type`: "numeric" when the lower-cased expression mentions numeric or
      number, else "date" when it mentions date, else "string". */
  function ExtractExpectedType(expr: string): (r: string)
    ensures r in {"numeric", "date", "string"}
    ensures r == "numeric" <==> Contains(Lower(expr), "numeric") || Contains(Lower(expr), "number")
    ensures r == "date" <==>
      !Contains(Lower(expr), "numeric") && !Contains(Lower(expr), "number") && Contains(Lower(expr), "date")
  {
    if Contains(Lower(expr), "numeric") || Contains(Lower(expr), "number") then "numeric"
    else if Contains(Lower(expr), "date") then "date"
    else "string"
  }
}
