/**
 * The profile of one attribute (`ProfilingResult`) with its derived predicates, the
 * construction of a profile from a raw statistics record, and `DatasetProfile`, the keyed
 * collection that keeps its two counters in step with its entries.
 */
module ProfilingStats {
  import opened Wrappers
  import opened Text
  import opened Numbers
  import opened Lists

  /** One element of `top_values`: its `value` (as `str()` prints it) and `count` keys,
      either of which may be absent. */
  datatype TopEntry = TopEntry(value: Option<string>, count: Option<int>)

  /** `str(tv.get('value', ''))`. */
  function EntryText(e: TopEntry): string {
    e.value.GetOr("")
  }

  /** `tv.get('count', 0)`. */
  function EntryCount(e: TopEntry): int {
    e.count.GetOr(0)
  }

  /** `s.replace(c, '')`. */
  function RemoveChar(s: string, c: char): (r: string)
    ensures c !in r
    ensures |r| <= |s|
  {
    if s == [] then [] else
      var last := if s[|s| - 1] == c then [] else [s[|s| - 1]];
      RemoveChar(s[..|s| - 1], c) + last
  }

  lemma {:induction false} RemoveCharAppend(s: string, t: string, c: char)
    ensures RemoveChar(s + t, c) == RemoveChar(s, c) + RemoveChar(t, c)
    decreases |t|
  {
    if t == [] {
      assert s + t == s;
    } else {
      assert (s + t)[..|s + t| - 1] == s + t[..|t| - 1];
      RemoveCharAppend(s, t[..|t| - 1], c);
    }
  }

  lemma {:induction false} RemoveCharAbsent(s: string, c: char)
    requires c !in s
    ensures RemoveChar(s, c) == s
  {
    if s != [] {
      RemoveCharAbsent(s[..|s| - 1], c);
      assert s[..|s| - 1] + [s[|s| - 1]] == s;
    }
  }

  datatype ProfilingResult = ProfilingResult(
    attributeName: string,
    dataType: string,
    missingPercentage: real,
    cardinality: string,
    topValues: seq<TopEntry>,
    range: Option<seq<Option<real>>>,
    imbalance: Option<string>,
    sparsity: Option<string>)
  {
    /** The field constraint on `missing_percentage`. */
    predicate Valid() {
      0.0 <= missingPercentage <= 100.0
    }

    predicate IsEmpty() {
      dataType == "Empty" || missingPercentage >= 100.0
    }

    /** The cardinality text with its `%` signs removed, read as a number; 0.0 if it is not one. */
    function CardinalityFloat(): real {
      ParseDecimal(RemoveChar(cardinality, '%')).GetOr(0.0)
    }

    predicate IsHighCardinality() {
      CardinalityFloat() > 90.0
    }

    predicate IsLowMissing() {
      missingPercentage < 5.0
    }

    /** The text of the most frequent value, if there are any top values. */
    function TopValue(): (r: Option<string>)
      ensures r.Some? <==> |topValues| > 0
      ensures r.Some? ==> r.value == EntryText(topValues[0])
    {
      if |topValues| > 0 then Some(EntryText(topValues[0])) else None
    }

    /** The count of the most frequent value, 0 when there are no top values. */
    function TopValueCount(): (r: int)
      ensures |topValues| == 0 ==> r == 0
      ensures |topValues| > 0 ==> r == EntryCount(topValues[0])
    {
      if |topValues| > 0 then EntryCount(topValues[0]) else 0
    }

    /** The texts of `top_values[:limit]`. */
    function GetValueList(limit: int): (r: seq<string>)
      ensures limit >= 0 ==> |r| <= limit
      ensures |r| <= |topValues|
      ensures forall k :: 0 <= k < |r| ==> r[k] == EntryText(topValues[k])
    {
      var kept := Slice(topValues, limit);
      seq(|kept|, k requires 0 <= k < |kept| => EntryText(kept[k]))
    }

    /** `(min, max)` when the range has exactly two entries and neither is None. */
    function GetNumericRange(): (r: Option<(real, real)>)
      ensures r.Some? <==> range.Some? && |range.value| == 2 && range.value[0].Some? && range.value[1].Some?
      ensures r.Some? ==> r.value == (range.value[0].value, range.value[1].value)
    {
      if range.Some? && |range.value| == 2 && range.value[0].Some? && range.value[1].Some? then
        Some((range.value[0].value, range.value[1].value))
      else
        None
    }
  }

  /** A cardinality written as a whole percentage reads back as that number. */
  lemma CardinalityOfPercent(r: ProfilingResult, n: nat)
    requires r.cardinality == NatToString(n) + "%"
    ensures r.CardinalityFloat() == n as real
    ensures r.IsHighCardinality() <==> n > 90
  {
    var s := NatToString(n);
    RemoveCharAppend(s, "%", '%');
    assert RemoveChar("%", '%') == [] by {
      assert "%"[..0] == [];
    }
    forall k | 0 <= k < |s| ensures s[k] != '%' {
      assert IsDigit(s[k]);
    }
    RemoveCharAbsent(s, '%');
    assert RemoveChar(r.cardinality, '%') == s;
    ParseNatToString(n);
  }

  /** A cardinality that is not a number counts as 0, so it is never high. */
  lemma CardinalityUnparsable(r: ProfilingResult)
    requires ParseDecimal(RemoveChar(r.cardinality, '%')).None?
    ensures r.CardinalityFloat() == 0.0 && !r.IsHighCardinality()
  {
  }

  /** A key of the raw statistics record: absent, present with a null value, or given. */
  datatype Field<T> = Absent | Null | Given(v: T)

  /** The raw statistics of one attribute as the profiling file holds them. */
  datatype RawStats = RawStats(
    dataType: Field<string>,
    missingPercentage: Field<real>,
    cardinality: Field<string>,
    topValues: Field<seq<TopEntry>>,
    range: Field<seq<Option<real>>>,
    imbalance: Field<string>,
    sparsity: Field<string>)

  /** `stats.get(key, default)` for a key whose field does not accept None. */
  function Required<T>(f: Field<T>, default: T): Option<T> {
    match f
    case Absent => Some(default)
    case Null => None
    case Given(v) => Some(v)
  }

  /** `stats.get(key)` for a key whose field accepts None. */
  function Optional<T>(f: Field<T>): Option<T> {
    match f
    case Given(v) => Some(v)
    case _ => None
  }

  /** `ProfilingResult.from_profiling_dict`: defaults for absent keys, and a validation
      failure for a null in a field that does not accept one or for a missing percentage
      outside `[0, 100]`. */
  function FromProfilingDict(name: string, stats: RawStats): (r: Result<ProfilingResult>)
    ensures r.Success? <==>
      && !stats.dataType.Null? && !stats.missingPercentage.Null?
      && !stats.cardinality.Null? && !stats.topValues.Null?
      && (stats.missingPercentage.Given? ==> 0.0 <= stats.missingPercentage.v <= 100.0)
    ensures r.Success? ==> r.value.Valid() && r.value.attributeName == name
    ensures r.Success? ==>
      && r.value.dataType == (if stats.dataType.Given? then stats.dataType.v else "Unknown")
      && r.value.missingPercentage == (if stats.missingPercentage.Given? then stats.missingPercentage.v else 0.0)
      && r.value.cardinality == (if stats.cardinality.Given? then stats.cardinality.v else "0%")
      && r.value.topValues == (if stats.topValues.Given? then stats.topValues.v else [])
      && r.value.range == Optional(stats.range)
  {
    var dataType := Required(stats.dataType, "Unknown");
    var missing := Required(stats.missingPercentage, 0.0);
    var cardinality := Required(stats.cardinality, "0%");
    var topValues := Required(stats.topValues, []);
    if dataType.None? || missing.None? || cardinality.None? || topValues.None? then
      Failure("validation error: field does not accept None")
    else if !(0.0 <= missing.value <= 100.0) then
      Failure("validation error: missing_percentage must be within [0, 100]")
    else
      Success(ProfilingResult(name, dataType.value, missing.value, cardinality.value, topValues.value,
        Optional(stats.range), Optional(stats.imbalance), Optional(stats.sparsity)))
  }

  /** The profiles of a dataset in the order of the profiling file, one per attribute name
      (a Python dict keyed by attribute name). */
  type ProfileTable = seq<ProfilingResult>

  function Names(t: ProfileTable): (r: seq<string>)
    ensures |r| == |t|
    ensures forall k :: 0 <= k < |t| ==> r[k] == t[k].attributeName
  {
    seq(|t|, k requires 0 <= k < |t| => t[k].attributeName)
  }

  predicate UniqueNames(t: ProfileTable) {
    Distinct(Names(t))
  }

  /** `profiling_stats.get(name)`. */
  function Lookup(t: ProfileTable, name: string): (r: Option<ProfilingResult>)
    ensures r.Some? <==> name in Names(t)
    ensures r.Some? ==> r.value in t && r.value.attributeName == name
  {
    if t == [] then None
    else if t[0].attributeName == name then Some(t[0])
    else
      assert Names(t) == [t[0].attributeName] + Names(t[1..]);
      Lookup(t[1..], name)
  }

  /** The number of non-empty profiles among the entries of `names`. */
  function CountNonEmpty(names: seq<string>, attributes: map<string, ProfilingResult>): (n: nat)
    requires forall k :: 0 <= k < |names| ==> names[k] in attributes
    ensures n <= |names|
  {
    if names == [] then 0 else
      var last := if attributes[names[|names| - 1]].IsEmpty() then 0 else 1;
      CountNonEmpty(names[..|names| - 1], attributes) + last
  }

  /** The values of `attributes` at `names`, in that order. */
  function Project(names: seq<string>, attributes: map<string, ProfilingResult>): (r: seq<ProfilingResult>)
    requires forall k :: 0 <= k < |names| ==> names[k] in attributes
    ensures |r| == |names|
    ensures forall k :: 0 <= k < |names| ==> r[k] == attributes[names[k]]
  {
    seq(|names|, k requires 0 <= k < |names| && names[k] in attributes => attributes[names[k]])
  }

  lemma AddKeepsKeys(names: seq<string>, attributes: map<string, ProfilingResult>, result: ProfilingResult)
    requires Distinct(names)
    requires forall k :: 0 <= k < |names| ==> names[k] in attributes
    requires forall a :: a in attributes ==> a in names
    ensures var ns := if result.attributeName in names then names else names + [result.attributeName];
      var attrs := attributes[result.attributeName := result];
      && Distinct(ns)
      && (forall k :: 0 <= k < |ns| ==> ns[k] in attrs)
      && (forall a :: a in attrs ==> a in ns)
  {
  }

  /** The attribute names of a raw profiling file, in file order. */
  function KeysOf(data: seq<(string, RawStats)>): (r: seq<string>)
    ensures |r| == |data|
    ensures forall k :: 0 <= k < |data| ==> r[k] == data[k].0
  {
    seq(|data|, k requires 0 <= k < |data| => data[k].0)
  }

  /** Whether every raw record of `data` builds a profile. */
  predicate AllBuild(data: seq<(string, RawStats)>) {
    forall k :: 0 <= k < |data| ==> FromProfilingDict(data[k].0, data[k].1).Success?
  }

  /** The first `i` records of `data` are stored, each under its own name. */
  predicate Stored(data: seq<(string, RawStats)>, i: nat, attributes: map<string, ProfilingResult>)
    requires i <= |data|
  {
    forall k :: 0 <= k < i ==>
      && FromProfilingDict(data[k].0, data[k].1).Success?
      && data[k].0 in attributes && attributes[data[k].0] == FromProfilingDict(data[k].0, data[k].1).value
  }

  /** Adding the profile built from record `i` extends what is stored and what is named. */
  lemma StoreNext(data: seq<(string, RawStats)>, i: nat, names: seq<string>,
                  attributes: map<string, ProfilingResult>, built: ProfilingResult)
    requires Distinct(KeysOf(data)) && i < |data|
    requires names == KeysOf(data[..i]) && Stored(data, i, attributes)
    requires FromProfilingDict(data[i].0, data[i].1) == Success(built)
    ensures data[i].0 !in names && built.attributeName == data[i].0
    ensures names + [data[i].0] == KeysOf(data[..i + 1])
    ensures Stored(data, i + 1, attributes[data[i].0 := built])
  {
    assert KeysOf(data[..i + 1]) == KeysOf(data[..i]) + [data[i].0];
    forall k | 0 <= k < i ensures data[k].0 != data[i].0 {
      assert KeysOf(data)[k] == data[k].0 && KeysOf(data)[i] == data[i].0;
    }
  }

  /** `DatasetProfile`: profiles keyed by attribute name, in insertion order, with the
      number of attributes and of non-empty attributes kept beside them. */
  class DatasetProfile {
    var names: seq<string>
    var attributes: map<string, ProfilingResult>
    var totalAttributes: int
    var nonEmptyAttributes: int

    ghost predicate Valid()
      reads this
    {
      && Distinct(names)
      && (forall k :: 0 <= k < |names| ==> names[k] in attributes)
      && (forall a :: a in attributes ==> a in names)
      && totalAttributes == |names|
      && nonEmptyAttributes == CountNonEmpty(names, attributes)
    }

    constructor ()
      ensures Valid()
      ensures names == [] && attributes == map[]
      ensures totalAttributes == 0 && nonEmptyAttributes == 0
    {
      names := [];
      attributes := map[];
      totalAttributes := 0;
      nonEmptyAttributes := 0;
    }

    /** Stores `result` under its attribute name, replacing an earlier entry of that name
        in place, then recounts. */
    method AddAttribute(result: ProfilingResult)
      requires Valid()
      modifies this
      ensures Valid()
      ensures attributes == old(attributes)[result.attributeName := result]
      ensures names == if result.attributeName in old(names) then old(names) else old(names) + [result.attributeName]
      ensures 0 <= nonEmptyAttributes <= totalAttributes
    {
      var name := result.attributeName;
      var ns := if name in names then names else names + [name];
      var attrs := attributes[name := result];
      AddKeepsKeys(names, attributes, result);
      names := ns;
      attributes := attrs;
      totalAttributes := |ns|;
      nonEmptyAttributes := CountNonEmpty(ns, attrs);
    }

    /** `get_attribute(name)`. */
    function GetAttribute(name: string): (r: Option<ProfilingResult>)
      reads this
      ensures r.Some? <==> name in attributes
      ensures r.Some? ==> r.value == attributes[name]
    {
      if name in attributes then Some(attributes[name]) else None
    }

    /** The profiles in insertion order. */
    function Values(): (r: seq<ProfilingResult>)
      reads this
      requires Valid()
      ensures |r| == |names|
      ensures forall k :: 0 <= k < |names| ==> r[k] == attributes[names[k]]
    {
      Project(names, attributes)
    }

    /** `get_non_empty_attributes()`: the non-empty profiles, in insertion order. */
    function GetNonEmptyAttributes(): (r: seq<ProfilingResult>)
      reads this
      requires Valid()
      ensures IsSubsequence(r, Values())
      ensures forall p :: p in r <==> p in Values() && !p.IsEmpty()
    {
      var r := Filter(Values(), (p: ProfilingResult) => !p.IsEmpty());
      FilterIsSubsequence(Values(), (p: ProfilingResult) => !p.IsEmpty());
      forall p ensures p in r <==> p in Values() && !p.IsEmpty() {
        FilterMembers(Values(), (p: ProfilingResult) => !p.IsEmpty(), p);
      }
      r
    }

    /** `get_low_missing_attributes(threshold)`: the profiles whose missing percentage is
        below `threshold`, in insertion order. */
    function GetLowMissingAttributes(threshold: real): (r: seq<ProfilingResult>)
      reads this
      requires Valid()
      ensures IsSubsequence(r, Values())
      ensures forall p :: p in r <==> p in Values() && p.missingPercentage < threshold
    {
      var r := Filter(Values(), (p: ProfilingResult) => p.missingPercentage < threshold);
      FilterIsSubsequence(Values(), (p: ProfilingResult) => p.missingPercentage < threshold);
      forall p ensures p in r <==> p in Values() && p.missingPercentage < threshold {
        FilterMembers(Values(), (p: ProfilingResult) => p.missingPercentage < threshold, p);
      }
      r
    }

    /** `DatasetProfile.from_json(data)`: each record built and added in file order; the
        first record that fails validation aborts the construction. */
    static method FromJson(data: seq<(string, RawStats)>) returns (r: Result<DatasetProfile>)
      requires Distinct(KeysOf(data))
      ensures r.Success? <==> AllBuild(data)
      ensures r.Success? ==> fresh(r.value) && r.value.Valid()
      ensures r.Success? ==> r.value.names == KeysOf(data)
      ensures r.Success? ==> forall k :: 0 <= k < |data| ==>
        r.value.attributes[data[k].0] == FromProfilingDict(data[k].0, data[k].1).value
    {
      var profile := new DatasetProfile();
      var i := 0;
      while i < |data|
        invariant 0 <= i <= |data|
        invariant fresh(profile) && profile.Valid()
        invariant AllBuild(data[..i])
        invariant profile.names == KeysOf(data[..i])
        invariant Stored(data, i, profile.attributes)
      {
        var built := FromProfilingDict(data[i].0, data[i].1);
        if built.Failure? {
          return Failure(built.error);
        }
        StoreNext(data, i, profile.names, profile.attributes, built.value);
        profile.AddAttribute(built.value);
        i := i + 1;
      }
      assert data[..i] == data;
      return Success(profile);
    }
  }
}
