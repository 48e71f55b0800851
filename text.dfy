/**
 * The string operations of Python that the core relies on: `str.strip`, `str.lower`,
 * `str.upper`, `str.startswith`, the `in` operator on strings, `str.split` with a
 * separator, and `f"{n:03d}"`. `lower` and `upper` map ASCII letters only; matching an
 * ASCII word ignoring case also admits the non-ASCII letters the `re` engine folds onto it.
 */
module Text {
  import opened Wrappers

  /** The characters Python's `str.isspace` (and `\s` in a `re` pattern) accepts. */
  predicate IsSpace(c: char) {
    || ('\t' <= c <= '\r')
    || ('\U{1C}' <= c <= ' ')
    || c == '\U{85}' || c == '\U{A0}' || c == '\U{1680}'
    || ('\U{2000}' <= c <= '\U{200A}')
    || c == '\U{2028}' || c == '\U{2029}' || c == '\U{202F}' || c == '\U{205F}' || c == '\U{3000}'
  }

  predicate IsDigit(c: char) { '0' <= c <= '9' }

  predicate IsAsciiLetter(c: char) { ('a' <= c <= 'z') || ('A' <= c <= 'Z') }

  predicate IsAlphaNumeric(c: char) { IsAsciiLetter(c) || IsDigit(c) }

  predicate AllDigits(s: string) { forall k :: 0 <= k < |s| ==> IsDigit(s[k]) }

  function LowerChar(c: char): char {
    if 'A' <= c <= 'Z' then (c as int + 32) as char else c
  }

  function UpperChar(c: char): char {
    if 'a' <= c <= 'z' then (c as int - 32) as char else c
  }

  /** `s.lower()`. */
  function Lower(s: string): string {
    seq(|s|, k requires 0 <= k < |s| => LowerChar(s[k]))
  }

  /** `s.upper()`. */
  function Upper(s: string): string {
    seq(|s|, k requires 0 <= k < |s| => UpperChar(s[k]))
  }

  predicate StartsWith(s: string, prefix: string) {
    |prefix| <= |s| && s[..|prefix|] == prefix
  }

  /** `sub` occurs in `s` starting at index `k`. */
  predicate OccursAt(s: string, sub: string, k: int) {
    0 <= k && k + |sub| <= |s| && s[k..k + |sub|] == sub
  }

  /** `sub in s` for strings. */
  ghost predicate IsInfix(sub: string, s: string) {
    exists k :: OccursAt(s, sub, k)
  }

  /** The first index at or after `from` where `sub` occurs (`s.find(sub, from)`). */
  function IndexOfFrom(s: string, sub: string, from: nat): (r: Option<nat>)
    ensures r.Some? ==> from <= r.value && OccursAt(s, sub, r.value)
    ensures r.Some? ==> forall k :: from <= k < r.value ==> !OccursAt(s, sub, k)
    ensures r.None? ==> forall k :: from <= k ==> !OccursAt(s, sub, k)
    decreases |s| - from
  {
    if from + |sub| > |s| then None
    else if s[from..from + |sub|] == sub then Some(from)
    else IndexOfFrom(s, sub, from + 1)
  }

  function IndexOf(s: string, sub: string): (r: Option<nat>)
    ensures r.Some? <==> IsInfix(sub, s)
    ensures r.Some? ==> OccursAt(s, sub, r.value) && forall k :: 0 <= k < r.value ==> !OccursAt(s, sub, k)
  {
    IndexOfFrom(s, sub, 0)
  }

  /** `sub in s`, computed. */
  predicate Contains(s: string, sub: string) {
    IndexOf(s, sub).Some?
  }

  /** The characters a strip drops: whitespace (`strip()`) or one given character
      (`strip(c)`). */
  datatype CharSet = Whitespace | Just(c: char)

  predicate InSet(x: char, d: CharSet) {
    match d
    case Whitespace => IsSpace(x)
    case Just(c) => x == c
  }

  /** The first index at or after `i` whose character is not in `drop` (`|s|` if none). */
  function SkipIn(s: string, drop: CharSet, i: nat): (e: nat)
    requires i <= |s|
    ensures i <= e <= |s|
    ensures forall k :: i <= k < e ==> InSet(s[k], drop)
    ensures e < |s| ==> !InSet(s[e], drop)
    decreases |s| - i
  {
    if i < |s| && InSet(s[i], drop) then SkipIn(s, drop, i + 1) else i
  }

  /** The index just past the last character before `j` that is not in `drop` (0 if none). */
  function BackIn(s: string, drop: CharSet, j: nat): (b: nat)
    requires j <= |s|
    ensures b <= j
    ensures forall k :: b <= k < j ==> InSet(s[k], drop)
    ensures b > 0 ==> !InSet(s[b - 1], drop)
  {
    if j > 0 && InSet(s[j - 1], drop) then BackIn(s, drop, j - 1) else j
  }

  /** `r` is `s[i..i + |r|]`, and every character of `s` outside it is in `drop`. */
  predicate TrimmedAt(s: string, r: string, i: int, drop: CharSet) {
    && 0 <= i && i + |r| <= |s| && r == s[i..i + |r|]
    && (forall k :: 0 <= k < i ==> InSet(s[k], drop))
    && (forall k :: i + |r| <= k < |s| ==> InSet(s[k], drop))
  }

  /** Drops the leading and trailing characters in `drop`: a piece of `s` with only such
      characters around it, that neither starts nor ends with one, and is empty exactly
      when every character of `s` is in `drop`. */
  function Trim(s: string, drop: CharSet): (r: string)
    ensures IsInfix(r, s)
    ensures exists i :: TrimmedAt(s, r, i, drop)
    ensures r != [] ==> !InSet(r[0], drop) && !InSet(r[|r| - 1], drop)
    ensures r == [] <==> forall k :: 0 <= k < |s| ==> InSet(s[k], drop)
  {
    var a := SkipIn(s, drop, 0);
    var b := BackIn(s, drop, |s|);
    var r := if a < b then s[a..b] else [];
    assert TrimmedAt(s, r, a, drop) && OccursAt(s, r, a);
    r
  }

  /** `s.strip()`. */
  function Strip(s: string): string {
    Trim(s, Whitespace)
  }

  /** `s.strip(c)` for a single character `c`: the piece of `s` left once the runs of `c`
      at either end are dropped. */
  function StripChar(s: string, c: char): (r: string)
    ensures IsInfix(r, s)
    ensures r != [] ==> r[0] != c && r[|r| - 1] != c
    ensures r == [] <==> forall k :: 0 <= k < |s| ==> s[k] == c
    ensures exists i :: DroppedAround(s, r, i, c)
  {
    var r := Trim(s, Just(c));
    var i :| TrimmedAt(s, r, i, Just(c));
    assert DroppedAround(s, r, i, c);
    r
  }

  /** `r` is `s[i..i + |r|]`, and every character of `s` outside it is `c`. */
  predicate DroppedAround(s: string, r: string, i: int, c: char) {
    && 0 <= i && i + |r| <= |s| && r == s[i..i + |r|]
    && (forall k :: 0 <= k < i ==> s[k] == c)
    && (forall k :: i + |r| <= k < |s| ==> s[k] == c)
  }

  /** `s.split(sep)` for a non-empty separator: the pieces between the non-overlapping
      occurrences of `sep`, scanned left to right. */
  function Split(s: string, sep: string): (parts: seq<string>)
    requires sep != []
    ensures |parts| >= 1
    decreases |s|
  {
    match IndexOf(s, sep)
    case None => [s]
    case Some(i) => [s[..i]] + Split(s[i + |sep|..], sep)
  }

  /** Every piece of a split is a piece of the text. */
  lemma {:induction false} SplitPiecesInfix(s: string, sep: string)
    requires sep != []
    ensures forall k :: 0 <= k < |Split(s, sep)| ==> IsInfix(Split(s, sep)[k], s)
    decreases |s|
  {
    match IndexOf(s, sep)
    case None =>
      assert OccursAt(s, s, 0);
    case Some(i) =>
      var rest := s[i + |sep|..];
      SplitPiecesInfix(rest, sep);
      assert OccursAt(s, s[..i], 0);
      forall k | 0 <= k < |Split(rest, sep)| ensures IsInfix(Split(rest, sep)[k], s) {
        InfixOfSuffix(s, i + |sep|, Split(rest, sep)[k]);
      }
      assert Split(s, sep) == [s[..i]] + Split(rest, sep);
  }

  /** Where the single character `c` first occurs in `s`, as `s.find(c)` finds it. */
  lemma IndexOfChar(s: string, c: char)
    ensures IndexOf(s, [c]).Some? <==> c in s
    ensures IndexOf(s, [c]).Some? ==> var i := IndexOf(s, [c]).value;
      i < |s| && s[i] == c && forall k :: 0 <= k < i ==> s[k] != c
  {
    if c in s {
      var k :| 0 <= k < |s| && s[k] == c;
      assert OccursAt(s, [c], k);
    }
    if IndexOf(s, [c]).Some? {
      var i := IndexOf(s, [c]).value;
      assert s[i..i + 1] == [c];
      assert s[i] in s;
      forall k | 0 <= k < i ensures s[k] != c {
        assert !OccursAt(s, [c], k);
        assert s[k..k + 1] == [s[k]];
      }
    }
  }

  /** Splitting on one character: the text after its last occurrence is the last piece,
      and the pieces before come from splitting what precedes that occurrence. */
  lemma {:induction false} SplitLastChar(a: string, c: char, b: string)
    requires c !in b
    ensures Split(a + [c] + b, [c]) == Split(a, [c]) + [b]
    decreases |a|, 1
  {
    if c in a {
      SplitLastCharAfterFirst(a, c, b);
    } else {
      var s := a + [c] + b;
      IndexOfChar(s, c);
      IndexOfChar(a, c);
      IndexOfChar(b, c);
      assert s[|a|..|a| + 1] == [c];
      assert forall k :: 0 <= k < |a| ==> s[k] != c;
      assert IndexOf(s, [c]) == Some(|a|);
      assert s[..|a|] == a && s[|a| + 1..] == b;
      SplitStep(s, [c], |a|);
      assert Split(a, [c]) == [a];
      assert Split(b, [c]) == [b];
    }
  }

  /** `SplitLastChar` when `c` occurs in `a`: both splits cut at its first occurrence. */
  lemma {:induction false} SplitLastCharAfterFirst(a: string, c: char, b: string)
    requires c !in b && c in a
    ensures Split(a + [c] + b, [c]) == Split(a, [c]) + [b]
    decreases |a|, 0
  {
    var s := a + [c] + b;
    IndexOfChar(s, c);
    IndexOfChar(a, c);
    var j := IndexOf(a, [c]).value;
    assert s[j..j + 1] == [c];
    assert forall k :: 0 <= k < j ==> s[k] != c;
    assert IndexOf(s, [c]) == Some(j);
    assert s[..j] == a[..j];
    assert s[j + 1..] == a[j + 1..] + [c] + b;
    SplitLastChar(a[j + 1..], c, b);
    SplitStep(s, [c], j);
    SplitStep(a, [c], j);
  }

  /** One cut of `Split`, at the first occurrence of the separator. */
  lemma SplitStep(s: string, sep: string, i: nat)
    requires sep != [] && IndexOf(s, sep) == Some(i)
    ensures Split(s, sep) == [s[..i]] + Split(s[i + |sep|..], sep)
  {
  }

  /** A piece of a suffix of `s` is a piece of `s`. */
  lemma InfixOfSuffix(s: string, from: nat, sub: string)
    requires from <= |s| && IsInfix(sub, s[from..])
    ensures IsInfix(sub, s)
  {
    var j :| OccursAt(s[from..], sub, j);
    assert s[from..][j..j + |sub|] == s[from + j..from + j + |sub|];
    assert OccursAt(s, sub, from + j);
  }

  function DigitChar(d: nat): char
    requires d < 10
  {
    ('0' as int + d) as char
  }

  /** `str(n)` for a natural number. */
  function NatToString(n: nat): (r: string)
    ensures r != [] && AllDigits(r)
  {
    if n < 10 then [DigitChar(n)] else NatToString(n / 10) + [DigitChar(n % 10)]
  }

  /** `f"{n:03d}"` for a natural number: its digits, left-padded with zeros to width 3. */
  function ZeroPad3(n: nat): (r: string)
    ensures |r| >= 3 && AllDigits(r)
  {
    var digits := NatToString(n);
    if |digits| >= 3 then digits else seq(3 - |digits|, _ => '0') + digits
  }

  /** `c` matches the lower-case ASCII letter `lower` in a pattern compiled with
      `re.IGNORECASE`: its simple lower-case form is `lower`, or it is one of the extra
      equivalents the engine adds (dotless and dotted i for `i`, long s for `s`, the
      Kelvin sign for `k`). */
  predicate FoldsTo(c: char, lower: char) {
    || LowerChar(c) == lower
    || (lower == 'i' && (c == '\U{130}' || c == '\U{131}'))
    || (lower == 's' && c == '\U{17F}')
    || (lower == 'k' && c == '\U{212A}')
  }

  /** The lower-case ASCII `word` matches `s` at `p` ignoring case. */
  predicate MatchesWordAt(s: string, p: int, word: string) {
    0 <= p && p + |word| <= |s| && forall k :: 0 <= k < |word| ==> FoldsTo(s[p + k], word[k])
  }

  /** The last index of `c` in `s` (`s.rfind(c)`). */
  function LastIndexOf(s: string, c: char): (r: Option<nat>)
    ensures r.Some? ==> r.value < |s| && s[r.value] == c && forall k :: r.value < k < |s| ==> s[k] != c
    ensures r.None? ==> c !in s
  {
    if s == [] then None
    else if s[|s| - 1] == c then Some(|s| - 1)
    else LastIndexOf(s[..|s| - 1], c)
  }

  /** No whitespace at either end. */
  predicate Trimmed(r: string) {
    r != [] ==> !IsSpace(r[0]) && !IsSpace(r[|r| - 1])
  }

  /** A text with no whitespace at either end is its own strip. */
  lemma StripKeepsTrimmed(s: string)
    requires s != [] ==> !IsSpace(s[0]) && !IsSpace(s[|s| - 1])
    ensures Strip(s) == s
  {
    TrimKeeps(s, Whitespace);
  }

  /** A text that neither starts nor ends with a character in `drop` is its own trim. */
  lemma TrimKeeps(s: string, drop: CharSet)
    requires s != [] ==> !InSet(s[0], drop) && !InSet(s[|s| - 1], drop)
    ensures Trim(s, drop) == s
  {
    if s != [] {
      assert SkipIn(s, drop, 0) == 0;
      assert BackIn(s, drop, |s|) == |s|;
    }
  }

  lemma StripTrimmed(s: string)
    ensures Trimmed(Strip(s))
    ensures Strip(s) == [] ==> forall k :: 0 <= k < |s| ==> IsSpace(s[k])
  {
    StripEnds(s);
    StripBlank(s);
  }

  lemma StripEnds(s: string)
    ensures var r := Strip(s); r != [] ==> !IsSpace(r[0]) && !IsSpace(r[|r| - 1])
  {
    var r := Trim(s, Whitespace);
    assert r != [] ==> !IsSpace(r[0]) && !IsSpace(r[|r| - 1]);
  }

  lemma StripBlank(s: string)
    ensures Strip(s) == [] ==> forall k :: 0 <= k < |s| ==> IsSpace(s[k])
  {
  }

  /** Stripping twice strips no more than stripping once. */
  lemma StripIdempotent(s: string)
    ensures Strip(Strip(s)) == Strip(s)
  {
    StripEnds(s);
    StripKeepsTrimmed(Strip(s));
  }

  /** The end of the run of whitespace starting at `p` (greedy `\s*`). */
  function SkipSpaces(s: string, p: nat): (e: nat)
    requires p <= |s|
    ensures p <= e <= |s|
    ensures forall k :: p <= k < e ==> IsSpace(s[k])
    ensures e < |s| ==> !IsSpace(s[e])
    decreases |s| - p
  {
    if p < |s| && IsSpace(s[p]) then SkipSpaces(s, p + 1) else p
  }

  /** The end of the run of digits starting at `p` (greedy `\d*`). */
  function SkipDigits(s: string, p: nat): (e: nat)
    requires p <= |s|
    ensures p <= e <= |s|
    ensures AllDigits(s[p..e])
    ensures e < |s| ==> !IsDigit(s[e])
    decreases |s| - p
  {
    if p < |s| && IsDigit(s[p]) then SkipDigits(s, p + 1) else p
  }
}
