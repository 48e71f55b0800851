/**
 * Attribute configuration: where the parent class of a dataset is read from, how a
 * hierarchical category value is cut down to its leaf, how a file path becomes a dataset
 * name, and the two lookup tables that drive rule recommendation.
 */
module AttributeConfig {
  import opened Wrappers
  import opened Text
  import opened Lists
  import opened ProfilingStats

  /** How many attributes the fallback selections keep. */
  const DefaultAttributeCount: nat := 15

  /** Default folder of the taxonomy schema. */
  const DefaultSchemaPath: string := "data/schema"

  /** Attribute names that may hold the parent class, in priority order. */
  const ParentClassIndicators: seq<string> := [
    "RS Product Category", "Product Category", "Category", "ProductCategory", "product_category",
    "category", "Class", "ProductClass", "product_class", "class", "Type", "ProductType", "product_type"]

  /** A delimiter is never empty (`str.split` refuses an empty separator). */
  type Delimiter = d: string | d != [] witness ">"

  /** The hierarchy delimiters, in the order they are tried. */
  const Delimiters: seq<Delimiter> := [">>", " > ", ">", "/", "|", "\\", " - "]

  /** `x` is one of the parts, stripped. */
  ghost predicate StrippedPart(parts: seq<string>, x: string) {
    exists j :: 0 <= j < |parts| && x == Strip(parts[j])
  }

  /** `[p.strip() for p in parts if p.strip()]`. */
  function NonBlankParts(parts: seq<string>): (r: seq<string>)
    ensures forall k :: 0 <= k < |r| ==> r[k] != [] && StrippedPart(parts, r[k])
  {
    if parts == [] then []
    else
      var init := NonBlankParts(parts[..|parts| - 1]);
      var last := Strip(parts[|parts| - 1]);
      StrippedFromPrefix(parts, parts[..|parts| - 1], init);
      assert last != [] ==> StrippedPart(parts, last);
      init + (if last != [] then [last] else [])
  }

  /** A stripped piece of some of the first parts is a stripped piece of the parts. */
  lemma StrippedFromPrefix(parts: seq<string>, prefix: seq<string>, r: seq<string>)
    requires prefix <= parts
    requires forall k :: 0 <= k < |r| ==> StrippedPart(prefix, r[k])
    ensures forall k :: 0 <= k < |r| ==> StrippedPart(parts, r[k])
  {
    forall k | 0 <= k < |r| ensures StrippedPart(parts, r[k]) {
      var j :| 0 <= j < |prefix| && r[k] == Strip(prefix[j]);
      assert prefix[j] == parts[j];
    }
  }

  /** One more part adds its stripped form at the end exactly when that is not blank: every
      non-blank part is kept, in order. */
  lemma NonBlankPartsSnoc(parts: seq<string>, p: string)
    ensures NonBlankParts(parts + [p]) == NonBlankParts(parts) + (if Strip(p) == [] then [] else [Strip(p)])
  {
    assert (parts + [p])[..|parts|] == parts;
  }

  /** The last piece kept is the last part that is not blank, stripped. */
  lemma {:induction false} NonBlankPartsLast(parts: seq<string>, j: nat)
    requires j < |parts| && Strip(parts[j]) != []
    requires forall k :: j < k < |parts| ==> Strip(parts[k]) == []
    ensures NonBlankParts(parts) != []
    ensures NonBlankParts(parts)[|NonBlankParts(parts)| - 1] == Strip(parts[j])
    decreases |parts|
  {
    var init, p := parts[..|parts| - 1], parts[|parts| - 1];
    assert parts == init + [p];
    NonBlankPartsSnoc(init, p);
    if j < |parts| - 1 {
      assert forall k :: j < k < |init| ==> init[k] == parts[k];
      NonBlankPartsLast(init, j);
    }
  }

  /** Splitting `value` at `d` leaves some non-blank piece. */
  predicate Yields(value: string, d: Delimiter) {
    Contains(value, d) && NonBlankParts(Split(value, d)) != []
  }

  /** Tries the delimiters `ds[from..]` in order on `value`. */
  function ExtractWith(value: string, ds: seq<Delimiter>, from: nat): string
    decreases |ds| - from
  {
    if from >= |ds| then Strip(value)
    else if Yields(value, ds[from]) then
      var parts := NonBlankParts(Split(value, ds[from]));
      parts[|parts| - 1]
    else ExtractWith(value, ds, from + 1)
  }

  /** `extract_parent_class(value)`: "Unknown" for an empty value; otherwise the last
      non-blank stripped piece under the first delimiter that gives one, or the stripped
      value when none does. */
  function ExtractParentClass(value: string): (r: string)
    ensures value == [] ==> r == "Unknown"
  {
    if value == [] then "Unknown" else ExtractWith(value, Delimiters, 0)
  }

  /** The search passes over the delimiters that leave no non-blank piece. */
  lemma {:induction false} ExtractWithPasses(value: string, ds: seq<Delimiter>, from: nat, i: nat)
    requires from <= i <= |ds|
    requires forall k {:trigger Yields(value, ds[k])} :: from <= k < i ==> !Yields(value, ds[k])
    ensures ExtractWith(value, ds, from) == ExtractWith(value, ds, i)
    decreases i - from
  {
    if from < i {
      ExtractWithSkips(value, ds, from);
      ExtractWithPasses(value, ds, from + 1, i);
    }
  }

  lemma ExtractWithStops(value: string, ds: seq<Delimiter>, from: nat)
    requires from < |ds| && Yields(value, ds[from])
    ensures ExtractWith(value, ds, from) == NonBlankParts(Split(value, ds[from]))[|NonBlankParts(Split(value, ds[from]))| - 1]
  {
  }

  lemma ExtractWithSkips(value: string, ds: seq<Delimiter>, from: nat)
    requires from < |ds| && !Yields(value, ds[from])
    ensures ExtractWith(value, ds, from) == ExtractWith(value, ds, from + 1)
  {
  }

  /** When no delimiter leaves a non-blank piece, the value is only stripped. */
  lemma {:induction false} ExtractWithNone(value: string, ds: seq<Delimiter>, from: nat)
    requires forall k :: from <= k < |ds| ==> !Yields(value, ds[k])
    ensures ExtractWith(value, ds, from) == Strip(value)
    decreases |ds| - from
  {
    if from < |ds| {
      ExtractWithNone(value, ds, from + 1);
    }
  }

  /** When `Delimiters[i]` is the first delimiter that occurs in the value and leaves a
      non-blank piece, and `j` is the last of its pieces that is not blank, the parent class
      is that piece stripped: it holds no `Delimiters[i]`. */
  lemma ExtractParentClassLast(value: string, i: nat, j: nat)
    requires i < |Delimiters| && Contains(value, Delimiters[i])
    requires forall k :: 0 <= k < i ==> !Yields(value, Delimiters[k])
    requires j < |Split(value, Delimiters[i])| && Strip(Split(value, Delimiters[i])[j]) != []
    requires forall k :: j < k < |Split(value, Delimiters[i])| ==> Strip(Split(value, Delimiters[i])[k]) == []
    ensures ExtractParentClass(value) == Strip(Split(value, Delimiters[i])[j])
    ensures !IsInfix(Delimiters[i], ExtractParentClass(value))
  {
    var parts := Split(value, Delimiters[i]);
    NonBlankPartsLast(parts, j);
    ExtractWithPasses(value, Delimiters, 0, i);
    ExtractWithStops(value, Delimiters, i);
    SplitPiecesFree(value, Delimiters[i]);
    var piece := parts[j];
    assert IsInfix(Strip(piece), piece);
    if IsInfix(Delimiters[i], Strip(piece)) {
      InfixTrans(Delimiters[i], Strip(piece), piece);
      assert false;
    }
  }

  /** When no delimiter leaves a non-blank piece (none occurs, say), the parent class is the
      value stripped. */
  lemma ExtractParentClassWhole(value: string)
    requires value != []
    requires forall k :: 0 <= k < |Delimiters| ==> !Yields(value, Delimiters[k])
    ensures ExtractParentClass(value) == Strip(value)
  {
    ExtractWithNone(value, Delimiters, 0);
  }

  /** The leaf of a `>>` hierarchy: whatever comes before the last `>>` (as in
      "A>>B>>Contactors"), the parent class is the non-blank text after it. */
  lemma ExtractParentClassLeaf(path: string, leaf: string)
    requires path == [] || path[|path| - 1] != '>'
    requires '>' !in leaf && leaf != [] && Trimmed(leaf)
    ensures ExtractParentClass(path + ">>" + leaf) == leaf
  {
    var v := path + ">>" + leaf;
    assert OccursAt(v, ">>", |path|);
    SplitAfterLast(path, leaf);
    var parts := Split(v, ">>");
    var j := |parts| - 1;
    assert parts[j] == leaf;
    StripKeepsTrimmed(leaf);
    ExtractParentClassLast(v, 0, j);
  }

  /** Splitting at `>>` when the text after the last `>>` holds no `>`. */
  lemma {:induction false} SplitAfterLast(a: string, b: string)
    requires a == [] || a[|a| - 1] != '>'
    requires '>' !in b
    ensures Split(a + ">>" + b, ">>") == Split(a, ">>") + [b]
    decreases |a|
  {
    var s := a + ">>" + b;
    FirstSeparator(a, b);
    match IndexOf(a, ">>")
    case Some(i) =>
      SplitStep(s, ">>", i);
      SplitStep(a, ">>", i);
      var t := a[i + 2..];
      AppendedSlices(a, b, i, i + 2);
      SplitAfterLast(t, b);
      assert Split(s, ">>") == [a[..i]] + (Split(t, ">>") + [b]);
      assert [a[..i]] + (Split(t, ">>") + [b]) == ([a[..i]] + Split(t, ">>")) + [b];
    case None =>
      NoSeparatorIn(b);
      SplitStep(s, ">>", |a|);
      assert s[..|a|] == a && s[|a| + 2..] == b;
      assert Split(a, ">>") == [a];
      assert Split(b, ">>") == [b];
  }

  /** Slicing `a + ">>" + b` inside `a`. */
  lemma AppendedSlices(a: string, b: string, i: nat, j: nat)
    requires i <= j <= |a|
    ensures (a + ">>" + b)[..i] == a[..i] && (a + ">>" + b)[j..] == a[j..] + ">>" + b
  {
  }

  /** The first `>>` of `a + ">>" + b` is the first of `a`, or the one appended. */
  lemma FirstSeparator(a: string, b: string)
    requires a == [] || a[|a| - 1] != '>'
    ensures IndexOf(a + ">>" + b, ">>") == if IndexOf(a, ">>").Some? then IndexOf(a, ">>") else Some(|a|)
  {
    var s := a + ">>" + b;
    assert OccursAt(s, ">>", |a|);
    forall k | 0 <= k < |a| ensures OccursAt(s, ">>", k) <==> OccursAt(a, ">>", k) {
      assert s[k] == a[k];
      if k + 1 < |a| {
        assert s[k..k + 2] == a[k..k + 2];
      } else {
        assert s[k..k + 2][0] == a[k];
      }
    }
  }

  /** Text without `>` holds no `>>`. */
  lemma NoSeparatorIn(u: string)
    requires '>' !in u
    ensures IndexOf(u, ">>") == None
  {
    forall k | 0 <= k ensures !OccursAt(u, ">>", k) {
      if k + 2 <= |u| { assert u[k..k + 2][0] == u[k]; }
    }
  }

  /** No piece of a split holds the separator. */
  lemma {:induction false} SplitPiecesFree(s: string, sep: string)
    requires sep != []
    ensures forall k :: 0 <= k < |Split(s, sep)| ==> !IsInfix(sep, Split(s, sep)[k])
    decreases |s|
  {
    match IndexOf(s, sep)
    case None =>
    case Some(i) =>
      var rest := s[i + |sep|..];
      SplitPiecesFree(rest, sep);
      forall m | 0 <= m ensures !OccursAt(s[..i], sep, m) {
        if m + |sep| <= i {
          assert s[..i][m..m + |sep|] == s[m..m + |sep|];
          assert !OccursAt(s, sep, m);
        }
      }
      assert Split(s, sep) == [s[..i]] + Split(rest, sep);
  }

  /** What the delimiter search returns is a piece of the value with no whitespace at
      either end, and it is blank only if the whole value is. */
  lemma {:induction false} ExtractWithPiece(value: string, ds: seq<Delimiter>, from: nat)
    ensures IsInfix(ExtractWith(value, ds, from), value)
    ensures Trimmed(ExtractWith(value, ds, from))
    ensures ExtractWith(value, ds, from) == [] ==> forall k :: 0 <= k < |value| ==> IsSpace(value[k])
    decreases |ds| - from
  {
    if from < |ds| {
      var sp := Split(value, ds[from]);
      var parts := NonBlankParts(sp);
      if Yields(value, ds[from]) {
        var last := parts[|parts| - 1];
        assert last != [] && StrippedPart(sp, last);
        var j :| 0 <= j < |sp| && last == Strip(sp[j]);
        SplitPiecesInfix(value, ds[from]);
        assert IsInfix(sp[j], value);
        InfixTrans(last, sp[j], value);
        StripTrimmed(sp[j]);
        ExtractWithStops(value, ds, from);
      } else {
        ExtractWithPiece(value, ds, from + 1);
        ExtractWithSkips(value, ds, from);
      }
    } else {
      StripTrimmed(value);
      assert ExtractWith(value, ds, from) == Strip(value);
    }
  }

  lemma InfixTrans(a: string, b: string, c: string)
    requires IsInfix(a, b) && IsInfix(b, c)
    ensures IsInfix(a, c)
  {
    var i :| OccursAt(b, a, i);
    var j :| OccursAt(c, b, j);
    forall t | 0 <= t < |a| ensures c[j + i + t] == a[t] {
      assert b[i + t] == a[t];
      assert c[j + (i + t)] == b[i + t];
    }
    assert c[j + i..j + i + |a|] == a;
    assert OccursAt(c, a, j + i);
  }

  /** The extracted parent class is a piece of the category value, trimmed of whitespace. */
  lemma ExtractParentClassPiece(value: string)
    requires value != []
    ensures IsInfix(ExtractParentClass(value), value)
    ensures Trimmed(ExtractParentClass(value))
  {
    ExtractWithPiece(value, Delimiters, 0);
  }

  // ----- dataset names -----

  /** A path component that counts: not empty and not `.`. */
  predicate IsPathPart(p: string) { p != [] && p != "." }

  /** The non-empty components of a POSIX path other than `.`. */
  function PathParts(path: string): seq<string> {
    Filter(Split(path, "/"), IsPathPart)
  }

  /** `Path(path).stem`: the last component without its final suffix, where a dot that
      starts or ends the name does not start a suffix. */
  function Stem(path: string): (r: string)
    ensures |r| <= |path| || PathParts(path) == []
  {
    var parts := PathParts(path);
    if parts == [] then []
    else
      var name := parts[|parts| - 1];
      var stem := match LastIndexOf(name, '.')
        case Some(i) => if 0 < i < |name| - 1 then name[..i] else name
        case None => name;
      assert IsInfix(name, path) by {
        FilterMembers(Split(path, "/"), IsPathPart, name);
        SplitPiecesInfix(path, "/");
        var k :| 0 <= k < |Split(path, "/")| && Split(path, "/")[k] == name;
      }
      stem
  }

  /** The stem of `dir/name.ext` is `name`, whatever the directory. */
  lemma StemOfFile(dir: string, name: string, ext: string)
    requires name != [] && '/' !in name && '.' !in name
    requires ext != [] && '/' !in ext && '.' !in ext
    ensures Stem(dir + "/" + name + "." + ext) == name
  {
    var file := name + "." + ext;
    assert dir + "/" + name + "." + ext == dir + ['/'] + file;
    FileNameParts(name, ext);
    PathPartsOfFile(dir, file);
    LastDot(name, ext);
    assert file[..|name|] == name;
  }

  lemma FileNameParts(name: string, ext: string)
    requires name != [] && '/' !in name && '.' !in name && '/' !in ext
    ensures '/' !in name + "." + ext && IsPathPart(name + "." + ext)
  {
    var file := name + "." + ext;
    forall k | 0 <= k < |file| ensures file[k] != '/' {
      if k < |name| { assert file[k] == name[k]; }
      else if k > |name| { assert file[k] == ext[k - |name| - 1]; }
    }
    assert file[0] == name[0] != '.';
  }

  /** The last component of `dir/file` is `file`. */
  lemma PathPartsOfFile(dir: string, file: string)
    requires '/' !in file && IsPathPart(file)
    ensures PathParts(dir + ['/'] + file) == PathParts(dir) + [file]
  {
    SplitLastChar(dir, '/', file);
    FilterSnoc(Split(dir, "/"), file, IsPathPart);
  }

  /** The last dot of `name.ext` is the one before `ext`. */
  lemma LastDot(name: string, ext: string)
    requires '.' !in name && '.' !in ext
    ensures LastIndexOf(name + "." + ext, '.') == Some(|name|)
  {
    var file := name + "." + ext;
    assert file[|name|] == '.';
    forall k | |name| < k < |file| ensures file[k] != '.' {
      assert file[k] == ext[k - |name| - 1];
    }
    forall k | 0 <= k < |name| ensures file[k] != '.' {
      assert file[k] == name[k];
    }
    assert '.' in file;
    var r := LastIndexOf(file, '.');
    assert r.Some?;
    assert !(r.value < |name|) && !(r.value > |name|);
  }

  predicate IsHex(c: char) { ('0' <= c <= '9') || ('a' <= c <= 'f') || ('A' <= c <= 'F') }

  /** `[a-f0-9]{8}-[a-f0-9]{4}-[a-f0-9]{4}-[a-f0-9]{4}-[a-f0-9]{12}` (ignoring case) at `p`. */
  predicate UuidAt(s: string, p: nat) {
    p + 36 <= |s| && IsUuid(s[p..p + 36])
  }

  predicate IsUuid(u: string) {
    |u| == 36 && forall k :: 0 <= k < 36 ==> if k == 8 || k == 13 || k == 18 || k == 23 then u[k] == '-' else IsHex(u[k])
  }

  /** Removes the UUIDs of `s[p..]`, scanning left to right without overlap. */
  function RemoveUuids(s: string, p: nat): (r: string)
    requires p <= |s|
    ensures |r| <= |s| - p
    decreases |s| - p
  {
    if p == |s| then []
    else if UuidAt(s, p) then RemoveUuids(s, p + 36)
    else [s[p]] + RemoveUuids(s, p + 1)
  }

  /** Where no UUID starts, the text is copied as it is. */
  lemma {:induction false} RemoveUuidsCopies(s: string, p: nat, q: nat)
    requires p <= q <= |s|
    requires forall k :: p <= k < q ==> !UuidAt(s, k)
    ensures RemoveUuids(s, p) == s[p..q] + RemoveUuids(s, q)
    decreases q - p
  {
    if p < q {
      RemoveUuidsCopies(s, p + 1, q);
      SliceCons(s, p, q);
      ConcatAssoc([s[p]], s[p + 1..q], RemoveUuids(s, q));
    }
  }

  /** A text with no UUID in it is left as it is. */
  lemma RemoveUuidsNone(s: string)
    requires forall k :: 0 <= k < |s| ==> !UuidAt(s, k)
    ensures RemoveUuids(s, 0) == s
  {
    RemoveUuidsCopies(s, 0, |s|);
  }

  /** One UUID between two texts that hold none is cut out, and nothing else is. */
  lemma RemoveOneUuid(a: string, u: string, b: string)
    requires IsUuid(u)
    requires forall k :: 0 <= k < |a| ==> !UuidAt(a + u + b, k)
    requires forall k :: 0 <= k < |b| ==> !UuidAt(b, k)
    ensures RemoveUuids(a + u + b, 0) == a + b
  {
    var s := a + u + b;
    RemoveUuidsCopies(s, 0, |a|);
    assert s[|a|..|a| + 36] == u;
    NoUuidAfter(a, u, b);
    RemoveUuidsCopies(s, |a| + 36, |s|);
    assert s[..|a|] == a && s[|a| + 36..] == b;
  }

  /** No UUID starts inside the `b` of `a + u + b` when none starts in `b` alone. */
  lemma NoUuidAfter(a: string, u: string, b: string)
    requires |u| == 36
    requires forall k :: 0 <= k < |b| ==> !UuidAt(b, k)
    ensures forall k :: |a| + 36 <= k < |a + u + b| ==> !UuidAt(a + u + b, k)
  {
    var s := a + u + b;
    forall k | |a| + 36 <= k < |s| ensures !UuidAt(s, k) {
      assert !UuidAt(b, k - |a| - 36);
      if k + 36 <= |s| {
        assert s[k..k + 36] == b[k - |a| - 36..k - |a|];
      }
    }
  }

  /** A suffix word: at least three letters long. */
  type Word = w: string | |w| >= 3 witness "out"

  const SuffixWords: seq<Word> := ["out", "data", "export", "raw", "clean"]

  /** `s[p..]` starts with `_` and one of the suffix words, ignoring case. */
  predicate SuffixStarts(s: string, p: nat) {
    p < |s| && s[p] == '_' && exists k :: 0 <= k < |SuffixWords| && MatchesWordAt(s, p + 1, SuffixWords[k])
  }

  /** The length of a match of `_(out|data|export|raw|clean)\s*\d*` (ignoring case) at `p`:
      an underscore, a suffix word, then as much whitespace and after it as many digits as
      follow; 0 when no suffix word follows an underscore there. */
  function SuffixAt(s: string, p: nat): (n: nat)
    ensures n == 0 || (p + n <= |s| && n >= 4)
    ensures n > 0 <==> SuffixStarts(s, p)
    ensures n > 0 ==> exists k :: 0 <= k < |SuffixWords| && WordThenRuns(s, p + 1, SuffixWords[k], p + n)
  {
    if p < |s| && s[p] == '_' then
      var w := WordAt(s, p + 1, SuffixWords);
      if w == 0 then 0
      else
        var e := SkipDigits(s, SkipSpaces(s, p + 1 + w));
        WordFound(s, p, SuffixWords, w, e - p);
        e - p
    else 0
  }

  /** `word` matches at `q` ignoring case, and the whitespace after it and then the digits
      after that run up to `e`. */
  predicate WordThenRuns(s: string, q: nat, word: string, e: nat) {
    MatchesWordAt(s, q, word) && e == SkipDigits(s, SkipSpaces(s, q + |word|))
  }

  /** The word `WordAt` finds after an underscore at `p`, with the runs after it. */
  lemma WordFound(s: string, p: nat, words: seq<Word>, w: nat, n: nat)
    requires w == WordAt(s, p + 1, words) && w > 0
    requires p + n == SkipDigits(s, SkipSpaces(s, p + 1 + w))
    ensures exists k :: 0 <= k < |words| && MatchesWordAt(s, p + 1, words[k])
    ensures exists k :: 0 <= k < |words| && WordThenRuns(s, p + 1, words[k], p + n)
  {
    var k :| 0 <= k < |words| && w == |words[k]| && MatchesWordAt(s, p + 1, words[k])
             && forall j :: 0 <= j < k ==> !MatchesWordAt(s, p + 1, words[j]);
    assert WordThenRuns(s, p + 1, words[k], p + n);
  }

  /** The length of the first of `words` that matches at `p` ignoring case, or 0 when none
      does. */
  function WordAt(s: string, p: nat, words: seq<Word>): (n: nat)
    ensures n == 0 || (n >= 3 && p + n <= |s|)
    ensures n == 0 <==> forall k :: 0 <= k < |words| ==> !MatchesWordAt(s, p, words[k])
    ensures n > 0 ==> exists k :: 0 <= k < |words| && n == |words[k]| && MatchesWordAt(s, p, words[k])
                        && forall j :: 0 <= j < k ==> !MatchesWordAt(s, p, words[j])
  {
    if words == [] then 0
    else if MatchesWordAt(s, p, words[0]) then |words[0]|
    else
      var n := WordAt(s, p, words[1..]);
      assert forall k :: 1 <= k < |words| ==> words[k] == words[1..][k - 1];
      assert n > 0 ==> exists k :: 0 <= k < |words| && n == |words[k]| && MatchesWordAt(s, p, words[k])
                         && forall j :: 0 <= j < k ==> !MatchesWordAt(s, p, words[j]) by {
        if n > 0 {
          var k :| 0 <= k < |words[1..]| && n == |words[1..][k]| && MatchesWordAt(s, p, words[1..][k])
                   && forall j :: 0 <= j < k ==> !MatchesWordAt(s, p, words[1..][j]);
          assert words[k + 1] == words[1..][k];
        }
      }
      n
  }

  /** Removes every match of the suffix pattern from `s[p..]`. */
  function RemoveSuffixes(s: string, p: nat): (r: string)
    requires p <= |s|
    decreases |s| - p
  {
    if p == |s| then []
    else
      var n := SuffixAt(s, p);
      if n > 0 then RemoveSuffixes(s, p + n) else [s[p]] + RemoveSuffixes(s, p + 1)
  }

  /** Where no suffix starts, the text is copied as it is. */
  lemma {:induction false} RemoveSuffixesCopies(s: string, p: nat, q: nat)
    requires p <= q <= |s|
    requires forall k {:trigger SuffixStarts(s, k)} :: p <= k < q ==> !SuffixStarts(s, k)
    ensures RemoveSuffixes(s, p) == s[p..q] + RemoveSuffixes(s, q)
    decreases q - p
  {
    if p < q {
      RemoveSuffixesStep(s, p);
      RemoveSuffixesCopies(s, p + 1, q);
      SliceCons(s, p, q);
      ConcatAssoc([s[p]], s[p + 1..q], RemoveSuffixes(s, q));
    }
  }

  lemma RemoveSuffixesStep(s: string, p: nat)
    requires p < |s| && !SuffixStarts(s, p)
    ensures RemoveSuffixes(s, p) == [s[p]] + RemoveSuffixes(s, p + 1)
  {
    assert SuffixAt(s, p) == 0;
  }

  /** A text with no suffix in it is left as it is. */
  lemma RemoveSuffixesNone(s: string)
    requires forall k {:trigger SuffixStarts(s, k)} :: 0 <= k < |s| ==> !SuffixStarts(s, k)
    ensures RemoveSuffixes(s, 0) == s
  {
    RemoveSuffixesCopies(s, 0, |s|);
  }

  /** A trailing `_export` (or another suffix word) after a name without underscores is cut
      off together with the spaces and digits after it. */
  lemma RemoveTrailingSuffix(name: string, k: nat, spaces: string, digits: string)
    requires '_' !in name && k < |SuffixWords|
    requires forall i :: 0 <= i < |spaces| ==> IsSpace(spaces[i])
    requires AllDigits(digits)
    ensures RemoveSuffixes(name + "_" + SuffixWords[k] + spaces + digits, 0) == name
  {
    var w := SuffixWords[k];
    var s := name + "_" + w + spaces + digits;
    var p := |name|;
    forall i | 0 <= i < p ensures !SuffixStarts(s, i) {
      assert s[i] == name[i];
    }
    RemoveSuffixesCopies(s, 0, p);
    assert s[..p] == name;
    SuffixRunsToEnd(name, k, spaces, digits);
    assert RemoveSuffixes(s, p) == RemoveSuffixes(s, |s|);
  }

  lemma SuffixRunsToEnd(name: string, k: nat, spaces: string, digits: string)
    requires k < |SuffixWords|
    requires forall i :: 0 <= i < |spaces| ==> IsSpace(spaces[i])
    requires AllDigits(digits)
    ensures var s := name + "_" + SuffixWords[k] + spaces + digits; SuffixAt(s, |name|) == |s| - |name|
  {
    var w := SuffixWords[k];
    var s := name + "_" + w + spaces + digits;
    var p := |name|;
    assert s[p + 1..p + 1 + |w|] == w;
    OnlyMatchingWord(s, p + 1, k);
    var e1 := p + 1 + |w|;
    assert forall i :: e1 <= i < e1 + |spaces| ==> s[i] == spaces[i - e1];
    assert forall i :: e1 + |spaces| <= i < |s| ==> s[i] == digits[i - e1 - |spaces|];
    SkipsAll(s, e1, |spaces|, |digits|);
  }

  /** Only the suffix word written at `p` matches there: no two of them share a first
      letter. */
  lemma OnlyMatchingWord(s: string, p: nat, k: nat)
    requires k < |SuffixWords| && p + |SuffixWords[k]| <= |s|
    requires s[p..p + |SuffixWords[k]|] == SuffixWords[k]
    ensures MatchesWordAt(s, p, SuffixWords[k])
    ensures forall j :: 0 <= j < |SuffixWords| && MatchesWordAt(s, p, SuffixWords[j]) ==> j == k
  {
    var w := SuffixWords[k];
    forall i | 0 <= i < |w| ensures FoldsTo(s[p + i], w[i]) {
      assert s[p + i] == s[p..p + |w|][i] == w[i];
    }
    assert s[p] == w[0];
    forall j | 0 <= j < |SuffixWords| && MatchesWordAt(s, p, SuffixWords[j]) ensures j == k {
      assert FoldsTo(s[p], SuffixWords[j][0]);
    }
  }

  /** Greedy `\s*\d*` at `p` over whitespace of length `m` and then digits of length `d`,
      up to the end of the text. */
  lemma SkipsAll(s: string, p: nat, m: nat, d: nat)
    requires p + m + d == |s|
    requires forall i :: p <= i < p + m ==> IsSpace(s[i])
    requires forall i :: p + m <= i < |s| ==> IsDigit(s[i])
    ensures SkipDigits(s, SkipSpaces(s, p)) == |s|
  {
    SpacesRun(s, p, p + m);
    DigitsRun(s, p + m);
  }

  lemma {:induction false} SpacesRun(s: string, p: nat, q: nat)
    requires p <= q <= |s|
    requires forall i :: p <= i < q ==> IsSpace(s[i])
    requires q < |s| ==> IsDigit(s[q])
    ensures SkipSpaces(s, p) == q
    decreases q - p
  {
    if p < q { SpacesRun(s, p + 1, q); }
  }

  lemma {:induction false} DigitsRun(s: string, p: nat)
    requires p <= |s|
    requires forall i :: p <= i < |s| ==> IsDigit(s[i])
    ensures SkipDigits(s, p) == |s|
    decreases |s| - p
  {
    if p < |s| { DigitsRun(s, p + 1); }
  }

  predicate IsSeparator(c: char) { c == '_' || IsSpace(c) }

  predicate NotUnderscore(c: char) { c != '_' }

  predicate NotSeparator(c: char) { !IsSeparator(c) }

  /** `re.sub(r'[_\s]+', '_', s)`: every run of underscores and whitespace becomes one
      underscore. */
  function Collapse(s: string): (r: string)
    ensures forall k :: 0 <= k < |r| ==> !IsSpace(r[k])
    ensures forall k :: 0 <= k < |r| - 1 ==> !(r[k] == '_' && r[k + 1] == '_')
    ensures s != [] && IsSeparator(s[|s| - 1]) ==> r != [] && r[|r| - 1] == '_'
    ensures s != [] && !IsSeparator(s[|s| - 1]) ==> r != [] && r[|r| - 1] == s[|s| - 1]
    ensures s == [] <==> r == []
  {
    if s == [] then []
    else
      var init := Collapse(s[..|s| - 1]);
      var c := s[|s| - 1];
      if IsSeparator(c) then
        if s[..|s| - 1] != [] && IsSeparator(s[|s| - 2]) then init else init + ['_']
      else init + [c]
  }

  /** Collapsing keeps every character that is not a separator, in order, and adds only
      underscores. */
  lemma {:induction false} CollapseKeeps(s: string)
    ensures Filter(Collapse(s), NotUnderscore) == Filter(s, NotSeparator)
    decreases |s|
  {
    if s != [] {
      var init, c := s[..|s| - 1], s[|s| - 1];
      var ci := Collapse(init);
      CollapseKeeps(init);
      assert s == init + [c];
      FilterSnoc(init, c, NotSeparator);
      if IsSeparator(c) {
        FilterSnoc(ci, '_', NotUnderscore);
        assert Filter(Collapse(s), NotUnderscore) == Filter(ci, NotUnderscore);
      } else {
        FilterSnoc(ci, c, NotUnderscore);
        assert Collapse(s) == ci + [c];
      }
    }
  }

  /** The stem with its UUIDs and dataset suffixes removed. */
  function CleanedStem(path: string): string {
    RemoveSuffixes(RemoveUuids(Stem(path), 0), 0)
  }

  /** `derive_dataset_name_from_path(path)`. */
  function DeriveDatasetNameFromPath(path: string): (r: string)
    ensures path == [] ==> r == "Dataset"
  {
    if path == [] then "Dataset"
    else
      var name := StripChar(Collapse(CleanedStem(path)), '_');
      if name == [] then "Product_Data" else name
  }

  /** A non-empty path whose cleaned stem is only underscores and whitespace (or nothing)
      gives "Product_Data"; any other gives a name that holds exactly the other characters
      of the cleaned stem, in order, joined by single underscores. */
  lemma DatasetNameFromCleaned(path: string)
    requires path != []
    ensures (forall k :: 0 <= k < |CleanedStem(path)| ==> IsSeparator(CleanedStem(path)[k])) ==>
      DeriveDatasetNameFromPath(path) == "Product_Data"
    ensures (exists k :: 0 <= k < |CleanedStem(path)| && !IsSeparator(CleanedStem(path)[k])) ==>
      Filter(DeriveDatasetNameFromPath(path), NotUnderscore) == Filter(CleanedStem(path), NotSeparator)
  {
    var t := CleanedStem(path);
    var c := Collapse(t);
    var r := StripChar(c, '_');
    CollapseKeeps(t);
    FilterEmpty(t, NotSeparator);
    FilterEmpty(c, NotUnderscore);
    if r != [] {
      StripCharKeeps(c);
    }
  }

  /** Stripping underscores from the ends drops no other character. */
  lemma StripCharKeeps(c: string)
    ensures Filter(StripChar(c, '_'), NotUnderscore) == Filter(c, NotUnderscore)
  {
    var r := StripChar(c, '_');
    var i :| DroppedAround(c, r, i, '_');
    FilterMiddle(c, i, i + |r|, NotUnderscore);
  }

  /** `dir/name_<uuid>.ext` gives `name` for a name of letters and digits. */
  lemma DatasetNameDropsUuid(dir: string, name: string, u: string, ext: string)
    requires name != [] && forall k :: 0 <= k < |name| ==> IsAlphaNumeric(name[k])
    requires IsUuid(u)
    requires ext != [] && '/' !in ext && '.' !in ext
    ensures DeriveDatasetNameFromPath(dir + "/" + name + "_" + u + "." + ext) == name
  {
    var stem := name + "_" + u;
    var path := dir + "/" + name + "_" + u + "." + ext;
    StemChars(name, u);
    assert path == dir + "/" + stem + "." + ext;
    StemOfFile(dir, stem, ext);
    UuidRemovedAfterName(name, u);
    NoSuffixInName(name);
    CollapseWord(name);
    CollapseUnderscore(name);
    StripTrailing(name);
  }

  lemma StemChars(name: string, u: string)
    requires forall k :: 0 <= k < |name| ==> IsAlphaNumeric(name[k])
    requires IsUuid(u)
    ensures '/' !in name + "_" + u && '.' !in name + "_" + u
  {
    var stem := name + "_" + u;
    forall k | 0 <= k < |stem| ensures stem[k] != '/' && stem[k] != '.' {
      if k < |name| { assert stem[k] == name[k]; }
      else if k > |name| { assert stem[k] == u[k - |name| - 1]; }
    }
  }

  /** A UUID after `name_` is removed, and nothing before it is. */
  lemma UuidRemovedAfterName(name: string, u: string)
    requires forall k :: 0 <= k < |name| ==> IsAlphaNumeric(name[k])
    requires IsUuid(u)
    ensures RemoveUuids(name + "_" + u, 0) == name + "_"
  {
    var a := name + "_";
    var stem := a + u + [];
    forall k | 0 <= k < |a| ensures !UuidAt(stem, k) {
      if k + 36 <= |stem| {
        assert stem[k..k + 36][8] == stem[k + 8];
        assert stem[k + 8] != '-' by {
          if k + 8 < |name| { assert stem[k + 8] == name[k + 8]; }
          else if k + 8 > |name| { assert stem[k + 8] == u[k + 7 - |name|]; }
          else { assert stem[k + 8] == '_'; }
        }
      }
    }
    RemoveOneUuid(a, u, []);
    assert stem == name + "_" + u && a + [] == a;
  }

  /** `name_` holds no suffix when `name` holds no underscore. */
  lemma NoSuffixInName(name: string)
    requires forall k :: 0 <= k < |name| ==> IsAlphaNumeric(name[k])
    ensures RemoveSuffixes(name + "_", 0) == name + "_"
  {
    NoSuffixStarts(name);
    RemoveSuffixesNone(name + "_");
  }

  lemma NoSuffixStarts(name: string)
    requires forall k :: 0 <= k < |name| ==> IsAlphaNumeric(name[k])
    ensures forall k :: 0 <= k < |name + "_"| ==> !SuffixStarts(name + "_", k)
  {
    var a := name + "_";
    forall k | 0 <= k < |a| ensures !SuffixStarts(a, k) {
      if k < |name| { assert a[k] == name[k]; } else { assert k + 1 == |a|; }
    }
  }

  /** Letters and digits pass through the collapse unchanged. */
  lemma {:induction false} CollapseWord(name: string)
    requires forall k :: 0 <= k < |name| ==> IsAlphaNumeric(name[k])
    ensures Collapse(name) == name
  {
    if name != [] {
      var init := name[..|name| - 1];
      CollapseWord(init);
      assert Collapse(name) == Collapse(init) + [name[|name| - 1]];
    }
  }

  /** An underscore after a character that is not a separator is kept. */
  lemma CollapseUnderscore(s: string)
    requires s != [] && !IsSeparator(s[|s| - 1])
    ensures Collapse(s + ['_']) == Collapse(s) + ['_']
  {
    assert (s + ['_'])[..|s|] == s;
  }

  /** Stripping underscores from `name_` gives `name` back when `name` has no underscore at
      either end. */
  lemma StripTrailing(name: string)
    requires name != [] && name[0] != '_' && name[|name| - 1] != '_'
    ensures StripChar(name + ['_'], '_') == name
  {
    var s := name + ['_'];
    var r := StripChar(s, '_');
    assert s[0] == name[0];
    assert r != [];
    var i :| DroppedAround(s, r, i, '_');
    assert i == 0;
    assert s[|name| - 1] == name[|name| - 1];
    assert |r| == |name|;
    assert r == s[..|name|] == name;
  }

  /** No whitespace, and no two underscores in a row. */
  predicate Collapsed(r: string) {
    && (forall k :: 0 <= k < |r| ==> !IsSpace(r[k]))
    && (forall k :: 0 <= k < |r| - 1 ==> !(r[k] == '_' && r[k + 1] == '_'))
  }

  lemma CollapsedInfix(name: string, c: string)
    requires IsInfix(name, c) && Collapsed(c)
    ensures Collapsed(name)
  {
    var j :| OccursAt(c, name, j);
    forall k | 0 <= k < |name| ensures name[k] == c[j + k] {
      assert c[j..j + |name|][k] == c[j + k];
    }
  }

  /** The shape of a derived dataset name: not empty, collapsed, and neither starting nor
      ending with an underscore. */
  predicate NameShaped(r: string) {
    r != [] && Collapsed(r) && r[0] != '_' && r[|r| - 1] != '_'
  }

  /** A derived dataset name is never empty, holds no whitespace, never doubles an
      underscore, and neither starts nor ends with one. */
  lemma DatasetNameShape(path: string)
    ensures NameShaped(DeriveDatasetNameFromPath(path))
  {
    if path == [] {
      DefaultNameShape("Dataset");
    } else {
      var c := Collapse(RemoveSuffixes(RemoveUuids(Stem(path), 0), 0));
      var name := StripChar(c, '_');
      assert DeriveDatasetNameFromPath(path) == if name == [] then "Product_Data" else name;
      if name != [] {
        StrippedShape(c);
      } else {
        DefaultNameShape("Product_Data");
      }
    }
  }

  lemma StrippedShape(c: string)
    requires Collapsed(c) && StripChar(c, '_') != []
    ensures NameShaped(StripChar(c, '_'))
  {
    CollapsedInfix(StripChar(c, '_'), c);
  }

  lemma DefaultNameShape(r: string)
    requires r == "Dataset" || r == "Product_Data"
    ensures NameShaped(r)
  {
    forall k | 0 <= k < |r| ensures IsAsciiLetter(r[k]) || r[k] == '_' {
    }
  }

  // ----- the parent-class attribute -----

  /** The profile counts as having values: not typed `Empty` and not entirely missing. */
  predicate HasValues(p: ProfilingResult) {
    p.dataType != "Empty" && p.missingPercentage < 100.0
  }

  /** The attribute is profiled and has values. */
  predicate Qualifies(stats: ProfileTable, name: string) {
    Lookup(stats, name).Some? && HasValues(Lookup(stats, name).value)
  }

  /** The first indicator of `indicators` present in `stats` with values. */
  function FirstIndicator(stats: ProfileTable, indicators: seq<string>): (r: Option<string>)
    ensures r.Some? ==> exists i :: 0 <= i < |indicators| && indicators[i] == r.value && Qualifies(stats, r.value)
                          && forall k :: 0 <= k < i ==> !Qualifies(stats, indicators[k])
    ensures r.None? ==> forall k :: 0 <= k < |indicators| ==> !Qualifies(stats, indicators[k])
  {
    if indicators == [] then None
    else if Qualifies(stats, indicators[0]) then
      assert indicators[0] == indicators[0];
      Some(indicators[0])
    else
      var r := FirstIndicator(stats, indicators[1..]);
      assert r.Some? ==> exists i :: 0 <= i < |indicators| && indicators[i] == r.value && Qualifies(stats, r.value)
                          && forall k :: 0 <= k < i ==> !Qualifies(stats, indicators[k]) by {
        if r.Some? {
          var i :| 0 <= i < |indicators[1..]| && indicators[1..][i] == r.value && Qualifies(stats, r.value)
                   && forall k :: 0 <= k < i ==> !Qualifies(stats, indicators[1..][k]);
          assert indicators[i + 1] == r.value;
          forall k | 0 <= k < i + 1 ensures !Qualifies(stats, indicators[k]) {
            if k > 0 { assert indicators[k] == indicators[1..][k - 1]; }
          }
        }
      }
      assert r.None? ==> forall k :: 0 <= k < |indicators| ==> !Qualifies(stats, indicators[k]) by {
        if r.None? {
          forall k | 0 <= k < |indicators| ensures !Qualifies(stats, indicators[k]) {
            if k > 0 { assert indicators[k] == indicators[1..][k - 1]; }
          }
        }
      }
      r
  }

  /** The name mentions a category, a class or a type (compared in lower case). */
  predicate NamesAClass(name: string) {
    var lower := Lower(name);
    Contains(lower, "category") || Contains(lower, "class") || Contains(lower, "type")
  }

  /** Whether the fallback accepts a profile. For the dictionaries the nodes keep in the
      state both conditions are checked; for profile objects only the data type is. */
  predicate FallbackAccepts(p: ProfilingResult, dumped: bool) {
    if dumped then HasValues(p) else p.dataType != "Empty"
  }

  /** A profile the fallback picks: its name mentions a class and the fallback accepts it. */
  predicate ClassCandidate(p: ProfilingResult, dumped: bool) {
    NamesAClass(p.attributeName) && FallbackAccepts(p, dumped)
  }

  /** `stats[k]` is a class candidate and no profile before it is. */
  predicate FirstClassAt(stats: ProfileTable, k: int, dumped: bool) {
    0 <= k < |stats| && ClassCandidate(stats[k], dumped)
    && forall j :: 0 <= j < k ==> !ClassCandidate(stats[j], dumped)
  }

  /** The first profile in `stats` whose name mentions a class and that the fallback accepts. */
  function FirstClassNamed(stats: ProfileTable, dumped: bool): (r: Option<string>)
    ensures r.Some? ==> exists k :: FirstClassAt(stats, k, dumped) && stats[k].attributeName == r.value
    ensures r.None? ==> forall k :: 0 <= k < |stats| ==> !ClassCandidate(stats[k], dumped)
  {
    if stats == [] then None
    else if ClassCandidate(stats[0], dumped) then
      assert FirstClassAt(stats, 0, dumped);
      Some(stats[0].attributeName)
    else
      var r := FirstClassNamed(stats[1..], dumped);
      assert r.Some? ==> exists k :: FirstClassAt(stats, k, dumped) && stats[k].attributeName == r.value by {
        if r.Some? {
          var k :| FirstClassAt(stats[1..], k, dumped) && stats[1..][k].attributeName == r.value;
          FirstClassAtCons(stats, k, dumped);
        }
      }
      assert r.None? ==> forall k :: 0 <= k < |stats| ==> !ClassCandidate(stats[k], dumped) by {
        if r.None? {
          NoneBeforeCons(stats, |stats|, p => ClassCandidate(p, dumped));
        }
      }
      r
  }

  lemma FirstClassAtCons(stats: ProfileTable, k: int, dumped: bool)
    requires stats != [] && !ClassCandidate(stats[0], dumped) && FirstClassAt(stats[1..], k, dumped)
    ensures FirstClassAt(stats, k + 1, dumped) && stats[k + 1] == stats[1..][k]
  {
    assert stats[k + 1] == stats[1..][k];
    NoneBeforeCons(stats, k + 1, p => ClassCandidate(p, dumped));
  }

  /** `find_parent_class_attribute(stats)`: the first indicator with values, else the
      first name mentioning a class that the fallback accepts, else None. `dumped` tells
      whether the profiles are held as dictionaries or as objects. */
  function FindParentClassAttribute(stats: ProfileTable, dumped: bool): (r: Option<string>)
    ensures r.Some? ==> r.value in Names(stats)
    ensures (exists k :: 0 <= k < |ParentClassIndicators| && Qualifies(stats, ParentClassIndicators[k])) ==>
      r == FirstIndicator(stats, ParentClassIndicators) && r.Some?
    ensures (forall k :: 0 <= k < |ParentClassIndicators| ==> !Qualifies(stats, ParentClassIndicators[k])) ==>
      r == FirstClassNamed(stats, dumped)
    ensures r.None? ==> forall k :: 0 <= k < |stats| ==> !ClassCandidate(stats[k], dumped)
  {
    var first := FirstIndicator(stats, ParentClassIndicators);
    if first.Some? then first
    else
      var r := FirstClassNamed(stats, dumped);
      assert r.Some? ==> r.value in Names(stats) by {
        if r.Some? {
          var k :| FirstClassAt(stats, k, dumped) && stats[k].attributeName == r.value;
          assert Names(stats)[k] == r.value;
        }
      }
      r
  }

  /** `get_parent_class_from_profiling(stats)`: the leaf of the most frequent value of the
      parent-class attribute, or "Unknown" without such an attribute or without values. */
  function GetParentClassFromProfiling(stats: ProfileTable, dumped: bool): (r: string)
    ensures FindParentClassAttribute(stats, dumped).None? ==> r == "Unknown"
    ensures var a := FindParentClassAttribute(stats, dumped);
      a.Some? && a.value != [] && |Lookup(stats, a.value).value.topValues| > 0 ==>
        r == ExtractParentClass(EntryText(Lookup(stats, a.value).value.topValues[0]))
    ensures var a := FindParentClassAttribute(stats, dumped);
      a.Some? && (a.value == [] || |Lookup(stats, a.value).value.topValues| == 0) ==> r == "Unknown"
  {
    match FindParentClassAttribute(stats, dumped)
    case None => "Unknown"
    case Some(a) =>
      if a == [] then "Unknown"
      else
        var p := Lookup(stats, a).value;
        if |p.topValues| > 0 then ExtractParentClass(EntryText(p.topValues[0])) else "Unknown"
  }

  // ----- lookup tables -----

  /** `DATATYPE_RULE_MAPPING.get(datatype, [])`. */
  function DatatypeRules(dataType: string): seq<string> {
    if dataType == "ID" then ["PRIMARY_KEY", "FORMAT_PATTERN", "NOT_NULL"]
    else if dataType == "Numeric" then ["RANGE", "DATA_TYPE", "STATISTICAL_BOUNDS", "PRECISION"]
    else if dataType == "Categorical" then ["VALUE_SET", "CASE_CONSISTENCY", "FORMAT_CONSISTENCY"]
    else if dataType == "Text" then ["FORMAT_PATTERN", "LENGTH", "NOT_EMPTY"]
    else if dataType == "Constant" then ["VALUE_SET"]
    else []
  }

  /** `MISSING_SEVERITY_THRESHOLDS`, in its order: the band name and its half-open range. */
  datatype Band = Band(severity: string, low: real, high: real)

  const SeverityBands: seq<Band> := [
    Band("Critical", 0.0, 5.0), Band("High", 5.0, 20.0), Band("Medium", 20.0, 50.0), Band("Low", 50.0, 100.0)]

  /** The bands tile `[0, 100)`: each percentage in that range lies in exactly one band,
      and each band starts where the previous one ends. */
  lemma SeverityBandsTile(m: real)
    requires 0.0 <= m < 100.0
    ensures exists k :: 0 <= k < |SeverityBands| && SeverityBands[k].low <= m < SeverityBands[k].high
    ensures forall j, k :: 0 <= j < k < |SeverityBands| ==> !(SeverityBands[j].low <= m < SeverityBands[j].high && SeverityBands[k].low <= m < SeverityBands[k].high)
    ensures SeverityBands[0].low == 0.0 && SeverityBands[|SeverityBands| - 1].high == 100.0
    ensures forall k :: 0 < k < |SeverityBands| ==> SeverityBands[k].low == SeverityBands[k - 1].high
  {
    if m < 5.0 { assert SeverityBands[0].low <= m < SeverityBands[0].high; }
    else if m < 20.0 { assert SeverityBands[1].low <= m < SeverityBands[1].high; }
    else if m < 50.0 { assert SeverityBands[2].low <= m < SeverityBands[2].high; }
    else { assert SeverityBands[3].low <= m < SeverityBands[3].high; }
  }
}
