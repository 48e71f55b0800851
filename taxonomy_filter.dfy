/**
 * The taxonomy allow-list: the display names read from the taxonomy schema,
 * cleaned once, and the membership tests and order-preserving filters built
 * on them (src/config/taxonomy_filter.py).
 */
module TaxonomyFilter {
  import opened Wrappers
  import opened Text
  import opened Lists
  import opened Numbers

  /** What reading the schema's display-name column gives. */
  datatype TaxonomySource =
    | SchemaMissing                       // no schema file at the resolved path
    | ReadError                           // the spreadsheet could not be read
    | DisplayNames(names: seq<string>)    // the distinct non-null display names, as text

  /** A cleaned display name is kept when it is non-empty and not "nan". */
  predicate KeepsCleaned(c: string) {
    c != [] && Lower(c) != "nan"
  }

  /** The cleaned allow-list built from a list of display names. */
  function CleanedNames(names: seq<string>): set<string> {
    if names == [] then {}
    else
      var c := Strip(names[|names| - 1]);
      CleanedNames(names[..|names| - 1]) + (if KeepsCleaned(c) then {c} else {})
  }

  lemma CleanedNamesStep(names: seq<string>)
    requires names != []
    ensures var c := Strip(names[|names| - 1]);
      CleanedNames(names) == CleanedNames(names[..|names| - 1]) + (if KeepsCleaned(c) then {c} else {})
  {
  }

  /** Each display name that survives cleaning is stored, stripped. */
  lemma {:induction false} CleanedNamesHas(names: seq<string>, k: nat)
    requires k < |names| && KeepsCleaned(Strip(names[k]))
    ensures Strip(names[k]) in CleanedNames(names)
  {
    CleanedNamesStep(names);
    if k < |names| - 1 {
      var init := names[..|names| - 1];
      assert init[k] == names[k];
      CleanedNamesHas(init, k);
    }
  }

  /** Every stored name is the strip of a display name that survives cleaning. */
  lemma {:induction false} CleanedNamesSound(names: seq<string>)
    ensures forall n :: n in CleanedNames(names) ==>
      exists k :: 0 <= k < |names| && KeepsCleaned(n) && n == Strip(names[k])
  {
    if names != [] {
      var init := names[..|names| - 1];
      CleanedNamesSound(init);
      forall n | n in CleanedNames(names)
        ensures exists k :: 0 <= k < |names| && KeepsCleaned(n) && n == Strip(names[k])
      {
        if n in CleanedNames(init) {
          var k :| 0 <= k < |init| && KeepsCleaned(n) && n == Strip(init[k]);
          assert names[k] == init[k];
        } else {
          assert n == Strip(names[|names| - 1]);
        }
      }
    }
  }

  /** Stored names are stripped, non-empty and not "nan". */
  lemma CleanedNamesShape(names: seq<string>)
    ensures forall n :: n in CleanedNames(names) ==>
      n != [] && Lower(n) != "nan" && Strip(n) == n
  {
    CleanedNamesSound(names);
    forall n | n in CleanedNames(names)
      ensures n != [] && Lower(n) != "nan" && Strip(n) == n
    {
      var k :| 0 <= k < |names| && KeepsCleaned(n) && n == Strip(names[k]);
      StripIdempotent(names[k]);
    }
  }

  /** The allow-list a load produces: empty after a missing file or a read error. */
  function Loaded(source: TaxonomySource): set<string> {
    match source
    case DisplayNames(names) => CleanedNames(names)
    case _ => {}
  }

  /** The image of a set of names under `lower()`. */
  function LowerSet(names: set<string>): set<string> {
    set n | n in names :: Lower(n)
  }

  /** `is_priority_attribute` once loaded: exact or lower-cased membership. */
  predicate IsMember(names: set<string>, name: string, caseSensitive: bool) {
    if caseSensitive then name in names else Lower(name) in LowerSet(names)
  }

  /** The raw attributes that are members, in their order. */
  function Members(raw: seq<string>, names: set<string>, caseSensitive: bool): seq<string> {
    if raw == [] then []
    else
      var last := raw[|raw| - 1];
      Members(raw[..|raw| - 1], names, caseSensitive)
        + (if IsMember(names, last, caseSensitive) then [last] else [])
  }

  /** The raw attributes that are not members, in their order. */
  function NonMembers(raw: seq<string>, names: set<string>, caseSensitive: bool): seq<string> {
    if raw == [] then []
    else
      var last := raw[|raw| - 1];
      NonMembers(raw[..|raw| - 1], names, caseSensitive)
        + (if IsMember(names, last, caseSensitive) then [] else [last])
  }

  /** The matched attributes are an order-preserving subsequence of the raw list. */
  lemma {:induction false} MembersSubsequence(raw: seq<string>, names: set<string>, caseSensitive: bool)
    ensures IsSubsequence(Members(raw, names, caseSensitive), raw)
  {
    if raw == [] {
      SubsequenceRefl(raw);
    } else {
      var init := raw[..|raw| - 1];
      var last := raw[|raw| - 1];
      assert raw == init + [last];
      MembersSubsequence(init, names, caseSensitive);
      var m := Members(init, names, caseSensitive);
      SubsequenceExtend(m, init, last);
      assert Members(raw, names, caseSensitive) == m || Members(raw, names, caseSensitive) == m + [last];
    }
  }

  /** The unmatched attributes are an order-preserving subsequence of the raw list. */
  lemma {:induction false} NonMembersSubsequence(raw: seq<string>, names: set<string>, caseSensitive: bool)
    ensures IsSubsequence(NonMembers(raw, names, caseSensitive), raw)
  {
    if raw == [] {
      SubsequenceRefl(raw);
    } else {
      var init := raw[..|raw| - 1];
      var last := raw[|raw| - 1];
      assert raw == init + [last];
      NonMembersSubsequence(init, names, caseSensitive);
      var m := NonMembers(init, names, caseSensitive);
      SubsequenceExtend(m, init, last);
      assert NonMembers(raw, names, caseSensitive) == m || NonMembers(raw, names, caseSensitive) == m + [last];
    }
  }

  /** Matched and unmatched together are as many as the raw list. */
  lemma {:induction false} MembersCount(raw: seq<string>, names: set<string>, caseSensitive: bool)
    ensures |Members(raw, names, caseSensitive)| + |NonMembers(raw, names, caseSensitive)| == |raw|
  {
    if raw != [] {
      MembersCount(raw[..|raw| - 1], names, caseSensitive);
    }
  }

  /** Matched holds exactly the raw members, unmatched exactly the raw non-members. */
  lemma {:induction false} MembersIn(raw: seq<string>, names: set<string>, caseSensitive: bool, x: string)
    ensures x in Members(raw, names, caseSensitive) <==> x in raw && IsMember(names, x, caseSensitive)
    ensures x in NonMembers(raw, names, caseSensitive) <==> x in raw && !IsMember(names, x, caseSensitive)
  {
    if raw != [] {
      var init := raw[..|raw| - 1];
      var last := raw[|raw| - 1];
      assert raw == init + [last];
      MembersIn(init, names, caseSensitive, x);
    }
  }

  /**
   * Matched and unmatched split the raw list: each is an order-preserving
   * subsequence holding exactly the members (resp. non-members), and their
   * lengths add up to the raw length.
   */
  lemma MembersPartition(raw: seq<string>, names: set<string>, caseSensitive: bool)
    ensures IsSubsequence(Members(raw, names, caseSensitive), raw)
    ensures IsSubsequence(NonMembers(raw, names, caseSensitive), raw)
    ensures |Members(raw, names, caseSensitive)| + |NonMembers(raw, names, caseSensitive)| == |raw|
    ensures forall x :: x in Members(raw, names, caseSensitive) <==> x in raw && IsMember(names, x, caseSensitive)
    ensures forall x :: x in NonMembers(raw, names, caseSensitive) <==> x in raw && !IsMember(names, x, caseSensitive)
  {
    MembersSubsequence(raw, names, caseSensitive);
    NonMembersSubsequence(raw, names, caseSensitive);
    MembersCount(raw, names, caseSensitive);
    forall x {
      MembersIn(raw, names, caseSensitive, x);
    }
  }

  /** The cleaning loop of `load_taxonomy_attributes`. */
  method CleanNames(names: seq<string>) returns (cleaned: set<string>)
    ensures cleaned == CleanedNames(names)
  {
    cleaned := {};
    var i := 0;
    while i < |names|
      invariant 0 <= i <= |names|
      invariant cleaned == CleanedNames(names[..i])
    {
      var nameStr := Strip(names[i]);
      assert names[..i + 1][..i] == names[..i];
      assert names[..i + 1][i] == names[i];
      CleanedNamesStep(names[..i + 1]);
      if KeepsCleaned(nameStr) {
        cleaned := cleaned + {nameStr};
      }
      i := i + 1;
    }
    assert names[..|names|] == names;
  }

  /** The loop of `filter_priority_attributes`: the members of `raw`, in order. */
  method KeepMembers(raw: seq<string>, names: set<string>, caseSensitive: bool) returns (filtered: seq<string>)
    ensures filtered == Members(raw, names, caseSensitive)
  {
    filtered := [];
    var i := 0;
    while i < |raw|
      invariant 0 <= i <= |raw|
      invariant filtered == Members(raw[..i], names, caseSensitive)
    {
      var attr := raw[i];
      if IsMember(names, attr, caseSensitive) {
        filtered := filtered + [attr];
      }
      assert raw[..i + 1][..i] == raw[..i];
      i := i + 1;
    }
    assert raw[..|raw|] == raw;
  }

  /** The loop of `get_matching_info`: members and non-members of `raw`, each in order. */
  method SplitMembers(raw: seq<string>, names: set<string>, caseSensitive: bool)
    returns (matched: seq<string>, unmatched: seq<string>)
    ensures matched == Members(raw, names, caseSensitive)
    ensures unmatched == NonMembers(raw, names, caseSensitive)
  {
    matched := [];
    unmatched := [];
    var i := 0;
    while i < |raw|
      invariant 0 <= i <= |raw|
      invariant matched == Members(raw[..i], names, caseSensitive)
      invariant unmatched == NonMembers(raw[..i], names, caseSensitive)
    {
      var attr := raw[i];
      if IsMember(names, attr, caseSensitive) {
        matched := matched + [attr];
      } else {
        unmatched := unmatched + [attr];
      }
      assert raw[..i + 1][..i] == raw[..i];
      i := i + 1;
    }
    assert raw[..|raw|] == raw;
  }

  /** The match percentage of `get_matching_info`. */
  function MatchPercentage(matched: nat, total: nat): (r: real)
    requires matched <= total
    ensures 0.0 <= r <= 100.0
    ensures total == 0 ==> r == 0.0
    ensures 0 < matched ==> 0.0 < r
    ensures matched == total && 0 < total ==> r == 100.0
  {
    if total == 0 then 0.0
    else
      var r := matched as real / total as real * 100.0;
      if matched > 0 then PercentOf(matched, total); r else r
  }

  /** `get_matching_info`'s report. */
  datatype MatchingInfo = MatchingInfo(
    totalRawAttributes: nat,
    totalTaxonomyAttributes: nat,
    matchedCount: nat,
    unmatchedCount: nat,
    matchPercentage: real,
    matchedAttributes: seq<string>,
    unmatchedAttributes: seq<string>)

  /** Longest unmatched list the report carries. */
  const UnmatchedShown: nat := 20

  class TaxonomyAttributeFilter {
    /** The schema folder or file given at construction (`None` means the default folder). */
    const schemaPath: Option<string>
    /** What reading that schema gives. */
    const schema: TaxonomySource
    var taxonomyAttributes: set<string>
    var taxonomyAttributesLower: set<string>
    var loaded: bool

    ghost predicate Valid()
      reads this
    {
      && taxonomyAttributesLower == LowerSet(taxonomyAttributes)
      && (loaded ==> taxonomyAttributes == Loaded(schema))
      && (!loaded ==> taxonomyAttributes == {})
    }

    constructor (schemaPath: Option<string>, schema: TaxonomySource)
      ensures Valid()
      ensures this.schemaPath == schemaPath && this.schema == schema
      ensures !loaded && taxonomyAttributes == {} && taxonomyAttributesLower == {}
    {
      this.schemaPath := schemaPath;
      this.schema := schema;
      taxonomyAttributes := {};
      taxonomyAttributesLower := {};
      loaded := false;
    }

    /** Loads the allow-list on the first call; later calls return it untouched. */
    method LoadTaxonomyAttributes() returns (r: set<string>)
      requires Valid()
      modifies this
      ensures Valid() && loaded
      ensures r == taxonomyAttributes == Loaded(schema)
      ensures old(loaded) ==> taxonomyAttributes == old(taxonomyAttributes)
      ensures !schema.DisplayNames? ==> taxonomyAttributes == {} && taxonomyAttributesLower == {}
    {
      if loaded {
        return taxonomyAttributes;
      }
      match schema {
      case SchemaMissing =>
        taxonomyAttributes := {};
        taxonomyAttributesLower := {};
        loaded := true;
      case ReadError =>
        taxonomyAttributes := {};
        taxonomyAttributesLower := {};
        loaded := true;
      case DisplayNames(names) =>
        var cleaned := CleanNames(names);
        taxonomyAttributes := cleaned;
        taxonomyAttributesLower := LowerSet(cleaned);
        loaded := true;
      }
      r := taxonomyAttributes;
    }

    method IsPriorityAttribute(attributeName: string, caseSensitive: bool) returns (b: bool)
      requires Valid()
      modifies this
      ensures Valid() && loaded && taxonomyAttributes == Loaded(schema)
      ensures b <==> IsMember(Loaded(schema), attributeName, caseSensitive)
    {
      if !loaded {
        var _ := LoadTaxonomyAttributes();
      }
      if caseSensitive {
        b := attributeName in taxonomyAttributes;
      } else {
        b := Lower(attributeName) in taxonomyAttributesLower;
      }
    }

    method FilterPriorityAttributes(rawAttributes: seq<string>, caseSensitive: bool) returns (filtered: seq<string>)
      requires Valid()
      modifies this
      ensures Valid() && loaded && taxonomyAttributes == Loaded(schema)
      ensures filtered == if Loaded(schema) == {} then [] else Members(rawAttributes, Loaded(schema), caseSensitive)
    {
      if !loaded {
        var _ := LoadTaxonomyAttributes();
      }
      if taxonomyAttributes == {} {
        return [];
      }
      filtered := KeepMembers(rawAttributes, taxonomyAttributes, caseSensitive);
    }

    method GetMatchingInfo(rawAttributes: seq<string>, caseSensitive: bool) returns (info: MatchingInfo)
      requires Valid()
      modifies this
      ensures Valid() && loaded && taxonomyAttributes == Loaded(schema)
      ensures info.totalRawAttributes == |rawAttributes|
      ensures info.totalTaxonomyAttributes == |Loaded(schema)|
      ensures info.matchedAttributes == Members(rawAttributes, Loaded(schema), caseSensitive)
      ensures info.unmatchedAttributes == Take(NonMembers(rawAttributes, Loaded(schema), caseSensitive), UnmatchedShown)
      ensures info.matchedCount == |info.matchedAttributes|
      ensures info.matchedCount + info.unmatchedCount == |rawAttributes|
      ensures info.matchPercentage == MatchPercentage(info.matchedCount, |rawAttributes|)
    {
      if !loaded {
        var _ := LoadTaxonomyAttributes();
      }
      var matched, unmatched := SplitMembers(rawAttributes, taxonomyAttributes, caseSensitive);
      MembersPartition(rawAttributes, taxonomyAttributes, caseSensitive);
      info := MatchingInfo(|rawAttributes|, |taxonomyAttributes|, |matched|, |unmatched|,
        MatchPercentage(|matched|, |rawAttributes|), matched, Take(unmatched, UnmatchedShown));
    }
  }

  /** The module-level cache behind `get_taxonomy_filter`. */
  class TaxonomyRegistry {
    /** What reading the default schema folder gives. */
    const defaultSchema: TaxonomySource
    var defaultFilter: TaxonomyAttributeFilter?

    constructor (defaultSchema: TaxonomySource)
      ensures this.defaultSchema == defaultSchema && defaultFilter == null
    {
      this.defaultSchema := defaultSchema;
      defaultFilter := null;
    }

    /**
     * Without a path, the cached default filter (built on first use);
     * with a path, a new filter over the schema read from `schemaAt`.
     */
    method GetTaxonomyFilter(schemaPath: Option<string>, schemaAt: string -> TaxonomySource)
      returns (f: TaxonomyAttributeFilter)
      modifies this
      ensures schemaPath.None? && old(defaultFilter) != null ==> f == old(defaultFilter)
      ensures schemaPath.None? && old(defaultFilter) == null ==>
        fresh(f) && f.Valid() && !f.loaded && f.schemaPath == None && f.schema == defaultSchema
      ensures schemaPath.None? ==> defaultFilter == f
      ensures schemaPath.Some? ==>
        fresh(f) && f.Valid() && !f.loaded && f.schemaPath == schemaPath
        && f.schema == schemaAt(schemaPath.value) && defaultFilter == old(defaultFilter)
    {
      if schemaPath.None? {
        if defaultFilter == null {
          defaultFilter := new TaxonomyAttributeFilter(None, defaultSchema);
        }
        return defaultFilter;
      }
      f := new TaxonomyAttributeFilter(schemaPath, schemaAt(schemaPath.value));
    }
  }
}
