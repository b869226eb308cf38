/** Interpreting the keys of metric records: stripping the grouping-field
 *  prefix, collecting a day's labels and every day's distinct labels, looking a
 *  value up by field and label, and deciding from letter case whether a set of
 *  labels is sensed (upper case) or custom (lower case). */
module MetricsKeys {
  import opened Common
  import opened MetricsTypes

  /** `groupingFields[i]` is the first grouping field, in list order, that `key`
   *  starts with. */
  ghost predicate IsFirstField(groupingFields: seq<string>, key: string, i: int)
  {
    && 0 <= i < |groupingFields|
    && StartsWith(key, groupingFields[i])
    && forall j :: 0 <= j < i ==> !StartsWith(key, groupingFields[j])
  }

  /** `trimGroupingPrefix`: the key with its first matching grouping field and
   *  one more character (the separator, whatever it is) removed; `undefined`
   *  when the key starts with no grouping field. */
  function TrimGroupingPrefix(groupingFields: seq<string>, key: string): (r: Option<string>)
    ensures r.None? <==> forall i :: 0 <= i < |groupingFields| ==> !StartsWith(key, groupingFields[i])
    ensures forall i :: IsFirstField(groupingFields, key, i) ==>
      r == Some(Substring(key, |groupingFields[i]| + 1))
    decreases |groupingFields|
  {
    if |groupingFields| == 0 then None
    else if StartsWith(key, groupingFields[0]) then
      assert forall i :: IsFirstField(groupingFields, key, i) ==> i == 0;
      Some(Substring(key, |groupingFields[0]| + 1))
    else
      TrimTail(groupingFields, key);
      TrimGroupingPrefix(groupingFields[1..], key)
  }

  lemma TrimTail(groupingFields: seq<string>, key: string)
    requires |groupingFields| > 0 && !StartsWith(key, groupingFields[0])
    ensures forall i :: 0 < i < |groupingFields| ==> groupingFields[1..][i - 1] == groupingFields[i]
    ensures forall i :: IsFirstField(groupingFields, key, i) ==> IsFirstField(groupingFields[1..], key, i - 1)
    ensures (forall i :: 0 <= i < |groupingFields| ==> !StartsWith(key, groupingFields[i])) <==>
      (forall i :: 0 <= i < |groupingFields[1..]| ==> !StartsWith(key, groupingFields[1..][i]))
  {
    forall i | IsFirstField(groupingFields, key, i)
      ensures IsFirstField(groupingFields[1..], key, i - 1)
    {
      forall j | 0 <= j < i - 1
        ensures !StartsWith(key, groupingFields[1..][j])
      {
        assert groupingFields[1..][j] == groupingFields[j + 1];
      }
    }
  }

  /** The label of a key as the callers use it: `if (trimmed)` also rejects `''`. */
  function GroupedLabel(groupingFields: seq<string>, key: string): Option<string>
  {
    var t := TrimGroupingPrefix(groupingFields, key);
    if t.Some? && t.value != "" then t else None
  }

  /** A key made of the first matching grouping field, any one separator
   *  character and a suffix trims back to exactly that suffix. */
  lemma {:induction false} TrimFieldKey(groupingFields: seq<string>, i: nat, sep: char, suffix: string)
    requires i < |groupingFields|
    requires forall j :: 0 <= j < i ==> !StartsWith(groupingFields[i] + [sep] + suffix, groupingFields[j])
    ensures TrimGroupingPrefix(groupingFields, groupingFields[i] + [sep] + suffix) == Some(suffix)
  {
    var f := groupingFields[i];
    var key := f + [sep] + suffix;
    assert key[..|f|] == f;
    assert IsFirstField(groupingFields, key, i);
    assert key[|f| + 1..] == suffix;
  }

  /** A key equal to its first matching grouping field trims to `''`, which the
   *  callers then ignore. */
  lemma {:induction false} TrimKeyEqualToField(groupingFields: seq<string>, i: nat)
    requires i < |groupingFields|
    requires forall j :: 0 <= j < i ==> !StartsWith(groupingFields[i], groupingFields[j])
    ensures TrimGroupingPrefix(groupingFields, groupingFields[i]) == Some("")
    ensures GroupedLabel(groupingFields, groupingFields[i]).None?
  {
    assert groupingFields[i][..|groupingFields[i]|] == groupingFields[i];
    assert IsFirstField(groupingFields, groupingFields[i], i);
  }

  /** `Object.keys` of a day's grouping-field entries, in order. */
  function Keys<V>(fields: seq<(string, V)>): (ks: seq<string>)
    ensures |ks| == |fields| && forall j :: 0 <= j < |fields| ==> ks[j] == fields[j].0
  {
    seq(|fields|, j requires 0 <= j < |fields| => fields[j].0)
  }

  /** The labels carried by a sequence of optional trims, in order. */
  function Present(ts: seq<Option<string>>): (r: seq<string>)
    ensures |r| <= |ts|
    decreases |ts|
  {
    if ts == [] then []
    else
      var prev := Present(ts[..|ts| - 1]);
      var t := ts[|ts| - 1];
      if t.Some? then prev + [t.value] else prev
  }

  lemma {:induction false} PresentMembers(ts: seq<Option<string>>, x: string)
    ensures x in Present(ts) <==> exists j :: 0 <= j < |ts| && ts[j] == Some(x)
    decreases |ts|
  {
    if ts != [] {
      var init := ts[..|ts| - 1];
      PresentMembers(init, x);
      assert ts == init + [ts[|ts| - 1]];
      if x in Present(init) {
        var j :| 0 <= j < |init| && init[j] == Some(x);
        assert ts[j] == init[j];
      }
    }
  }

  /** The label of each key, in key order. */
  function KeyLabels(groupingFields: seq<string>, keys: seq<string>): (ts: seq<Option<string>>)
    ensures |ts| == |keys| && forall j :: 0 <= j < |keys| ==> ts[j] == GroupedLabel(groupingFields, keys[j])
  {
    seq(|keys|, j requires 0 <= j < |keys| => GroupedLabel(groupingFields, keys[j]))
  }

  /** The labels of `keys` in key order: the `reduce` of `getLabelsForDay`. */
  function LabelsOfKeys(groupingFields: seq<string>, keys: seq<string>): (r: seq<string>)
    ensures |r| <= |keys|
  {
    Present(KeyLabels(groupingFields, keys))
  }

  lemma LabelsOfKeysSnoc(groupingFields: seq<string>, keys: seq<string>, k: string)
    ensures LabelsOfKeys(groupingFields, keys + [k]) ==
      LabelsOfKeys(groupingFields, keys) +
      (if GroupedLabel(groupingFields, k).Some? then [GroupedLabel(groupingFields, k).value] else [])
  {
    var ts := KeyLabels(groupingFields, keys + [k]);
    assert ts[..|ts| - 1] == KeyLabels(groupingFields, keys);
  }

  /** A label is among the labels of `keys` exactly when some key has it. */
  lemma {:induction false} LabelsOfKeysMembers(groupingFields: seq<string>, keys: seq<string>, x: string)
    ensures x in LabelsOfKeys(groupingFields, keys) <==>
      exists j :: 0 <= j < |keys| && GroupedLabel(groupingFields, keys[j]) == Some(x)
  {
    PresentMembers(KeyLabels(groupingFields, keys), x);
  }

  /** `getLabelsForDay`: the non-empty trimmed keys of one day, in key order. */
  function GetLabelsForDay<V>(groupingFields: seq<string>, day: DayOfMetricData<V>): (r: seq<string>)
    ensures |r| <= |day.fields|
  {
    LabelsOfKeys(groupingFields, Keys(day.fields))
  }

  /** A day's labels are exactly the non-empty trimmed forms of its keys. */
  lemma {:induction false} GetLabelsForDayMembers<V>(groupingFields: seq<string>, day: DayOfMetricData<V>, x: string)
    ensures x in GetLabelsForDay(groupingFields, day) <==>
      exists j :: 0 <= j < |day.fields| && GroupedLabel(groupingFields, day.fields[j].0) == Some(x)
    ensures x in GetLabelsForDay(groupingFields, day) ==> x != ""
  {
    LabelsOfKeysMembers(groupingFields, Keys(day.fields), x);
  }

  /** Every day's labels, day after day: the order in which
   *  `getUniqueLabelsForDays` visits them. */
  function AllLabels<V>(groupingFields: seq<string>, days: seq<DayOfMetricData<V>>): (r: seq<string>)
    decreases |days|
  {
    if days == [] then []
    else AllLabels(groupingFields, days[..|days| - 1]) + GetLabelsForDay(groupingFields, days[|days| - 1])
  }

  /** A label is among all days' labels exactly when it is a label of some day. */
  lemma {:induction false} AllLabelsMembers<V>(groupingFields: seq<string>, days: seq<DayOfMetricData<V>>, x: string)
    ensures x in AllLabels(groupingFields, days) <==>
      exists i :: 0 <= i < |days| && x in GetLabelsForDay(groupingFields, days[i])
    decreases |days|
  {
    if days != [] {
      var init, d := days[..|days| - 1], days[|days| - 1];
      AllLabelsMembers(groupingFields, init, x);
      assert days == init + [d];
      if x in AllLabels(groupingFields, init) {
        var i :| 0 <= i < |init| && x in GetLabelsForDay(groupingFields, init[i]);
        assert days[i] == init[i];
      }
      if exists i :: 0 <= i < |days| && x in GetLabelsForDay(groupingFields, days[i]) {
        var i :| 0 <= i < |days| && x in GetLabelsForDay(groupingFields, days[i]);
        if i < |init| {
          assert init[i] == days[i];
        }
      }
    }
  }

  lemma AllLabelsSnoc<V>(groupingFields: seq<string>, days: seq<DayOfMetricData<V>>, d: DayOfMetricData<V>)
    ensures AllLabels(groupingFields, days + [d]) == AllLabels(groupingFields, days) + GetLabelsForDay(groupingFields, d)
  {
    assert (days + [d])[..|days + [d]| - 1] == days;
  }

  /** One key's step of the inner loop of `getUniqueLabelsForDays`. */
  lemma UniqueLabelsStep(groupingFields: seq<string>, seen: seq<string>, ks: seq<string>, j: nat, u: seq<string>)
    requires j < |ks| && u == Dedup(seen + LabelsOfKeys(groupingFields, ks[..j]))
    ensures (var t := TrimGroupingPrefix(groupingFields, ks[j]);
             if t.Some? && t.value != "" && t.value !in u then u + [t.value] else u)
            == Dedup(seen + LabelsOfKeys(groupingFields, ks[..j + 1]))
  {
    var k := ks[j];
    var trimmed := TrimGroupingPrefix(groupingFields, k);
    LabelsOfKeysSnoc(groupingFields, ks[..j], k);
    assert ks[..j + 1] == ks[..j] + [k];
    if trimmed.Some? && trimmed.value != "" {
      assert seen + LabelsOfKeys(groupingFields, ks[..j + 1]) ==
        (seen + LabelsOfKeys(groupingFields, ks[..j])) + [trimmed.value];
      DedupSnoc(seen + LabelsOfKeys(groupingFields, ks[..j]), trimmed.value);
    } else {
      assert seen + LabelsOfKeys(groupingFields, ks[..j + 1]) == seen + LabelsOfKeys(groupingFields, ks[..j]);
    }
  }

  /** The inner loop of `getUniqueLabelsForDays`: one day's keys pushed onto
   *  the labels gathered so far, each new non-empty label once. */
  method AddDayLabels(groupingFields: seq<string>, seen: seq<string>, ks: seq<string>, u0: seq<string>)
    returns (uniqueLabels: seq<string>)
    requires u0 == Dedup(seen)
    ensures uniqueLabels == Dedup(seen + LabelsOfKeys(groupingFields, ks))
  {
    uniqueLabels := u0;
    var j := 0;
    assert ks[..0] == [] && seen + [] == seen;
    while j < |ks|
      invariant 0 <= j <= |ks|
      invariant uniqueLabels == Dedup(seen + LabelsOfKeys(groupingFields, ks[..j]))
    {
      var k := ks[j];
      var trimmed := TrimGroupingPrefix(groupingFields, k);
      UniqueLabelsStep(groupingFields, seen, ks, j, uniqueLabels);
      if trimmed.Some? && trimmed.value != "" && trimmed.value !in uniqueLabels {
        uniqueLabels := uniqueLabels + [trimmed.value];
      }
      j := j + 1;
    }
    assert ks[..|ks|] == ks;
  }

  /** `getUniqueLabelsForDays`: every non-empty trimmed key of every day, once
   *  each, in the order the days and their keys first show it. */
  method GetUniqueLabelsForDays<V>(groupingFields: seq<string>, metricDataDays: seq<DayOfMetricData<V>>)
    returns (uniqueLabels: seq<string>)
    ensures uniqueLabels == Dedup(AllLabels(groupingFields, metricDataDays))
  {
    uniqueLabels := [];
    var i := 0;
    while i < |metricDataDays|
      invariant 0 <= i <= |metricDataDays|
      invariant uniqueLabels == Dedup(AllLabels(groupingFields, metricDataDays[..i]))
    {
      var e := metricDataDays[i];
      uniqueLabels := AddDayLabels(groupingFields, AllLabels(groupingFields, metricDataDays[..i]), Keys(e.fields), uniqueLabels);
      AllLabelsSnoc(groupingFields, metricDataDays[..i], e);
      assert metricDataDays[..i + 1] == metricDataDays[..i] + [e];
      i := i + 1;
    }
    assert metricDataDays[..|metricDataDays|] == metricDataDays;
  }

  /** What `getUniqueLabelsForDays` returns: no label twice, exactly the labels
   *  of the days' keys, in the order of their first occurrences. */
  lemma {:induction false} UniqueLabelsForDays<V>(groupingFields: seq<string>, days: seq<DayOfMetricData<V>>)
    ensures var u := Dedup(AllLabels(groupingFields, days));
      && NoDuplicates(u)
      && (forall x :: x in u ==> x != "")
      && (forall x :: x in u <==> exists i :: 0 <= i < |days| && x in GetLabelsForDay(groupingFields, days[i]))
      && (forall a, b :: 0 <= a < b < |u| ==>
            FirstIndex(AllLabels(groupingFields, days), u[a]) < FirstIndex(AllLabels(groupingFields, days), u[b]))
  {
    DedupKeepsFirstOccurrenceOrder(AllLabels(groupingFields, days));
    forall x
      ensures x in Dedup(AllLabels(groupingFields, days)) <==>
        exists i :: 0 <= i < |days| && x in GetLabelsForDay(groupingFields, days[i])
    {
      AllLabelsMembers(groupingFields, days, x);
    }
    forall x | x in Dedup(AllLabels(groupingFields, days))
      ensures x != ""
    {
      AllLabelsMembers(groupingFields, days, x);
      var i :| 0 <= i < |days| && x in GetLabelsForDay(groupingFields, days[i]);
      GetLabelsForDayMembers(groupingFields, days[i], x);
    }
  }

  /** The value stored under a key: the first pair with that name. */
  function Lookup<V>(fields: seq<(string, V)>, name: string): (r: Option<V>)
    ensures r.None? <==> forall j :: 0 <= j < |fields| ==> fields[j].0 != name
    ensures r.Some? ==> exists j :: 0 <= j < |fields| && fields[j] == (name, r.value)
  {
    if fields == [] then None
    else if fields[0].0 == name then Some(fields[0].1)
    else
      var r := Lookup(fields[1..], name);
      assert forall j :: 0 < j < |fields| ==> fields[1..][j - 1] == fields[j];
      r
  }

  /** `valueForFieldOnDay`: the value stored under `<field>_<key>`. */
  function ValueForFieldOnDay<V>(day: DayOfMetricData<V>, field: string, key: string): (r: Option<V>)
    ensures r.None? <==> forall j :: 0 <= j < |day.fields| ==> day.fields[j].0 != field + "_" + key
    ensures r.Some? ==> exists j :: 0 <= j < |day.fields| && day.fields[j] == (field + "_" + key, r.value)
  {
    Lookup(day.fields, field + "_" + key)
  }

  /** Reading a value back by field and key undoes the prefix stripping: a
   *  present `<field>_<key>` key, with `field` its first matching grouping
   *  field, yields `key` among the day's labels and a value for the pair. */
  lemma {:induction false} ValueForFieldOnDayInvertsTrim<V>(
    groupingFields: seq<string>, i: nat, day: DayOfMetricData<V>, key: string, j: nat)
    requires i < |groupingFields| && key != ""
    requires forall j' :: 0 <= j' < i ==> !StartsWith(groupingFields[i] + "_" + key, groupingFields[j'])
    requires j < |day.fields| && day.fields[j].0 == groupingFields[i] + "_" + key
    ensures key in GetLabelsForDay(groupingFields, day)
    ensures ValueForFieldOnDay(day, groupingFields[i], key).Some?
  {
    TrimFieldKey(groupingFields, i, '_', key);
    assert GroupedLabel(groupingFields, day.fields[j].0) == Some(key);
    GetLabelsForDayMembers(groupingFields, day, key);
  }

  /** A sensed key: unchanged by `toUpperCase`, that is, free of lower-case
   *  letters. */
  function IsSensed(mode: string): (r: bool)
    ensures r <==> forall i :: 0 <= i < |mode| ==> !('a' <= mode[i] <= 'z')
  {
    assert (forall i :: 0 <= i < |mode| ==> !('a' <= mode[i] <= 'z')) ==> mode == ToUpper(mode) by {
      if forall i :: 0 <= i < |mode| ==> !('a' <= mode[i] <= 'z') {
        assert forall i :: 0 <= i < |mode| ==> ToUpper(mode)[i] == mode[i];
      }
    }
    mode == ToUpper(mode)
  }

  /** A custom key: unchanged by `toLowerCase`, that is, free of upper-case
   *  letters. */
  function IsCustom(mode: string): (r: bool)
    ensures r <==> forall i :: 0 <= i < |mode| ==> !('A' <= mode[i] <= 'Z')
  {
    assert (forall i :: 0 <= i < |mode| ==> !('A' <= mode[i] <= 'Z')) ==> mode == ToLower(mode) by {
      if forall i :: 0 <= i < |mode| ==> !('A' <= mode[i] <= 'Z') {
        assert forall i :: 0 <= i < |mode| ==> ToLower(mode)[i] == mode[i];
      }
    }
    mode == ToLower(mode)
  }

  /** `reduce((a, b) => a && b, true)`. */
  function AllOf(bs: seq<bool>): (r: bool)
    ensures r <==> forall i :: 0 <= i < |bs| ==> bs[i]
  {
    if bs == [] then true else bs[0] && AllOf(bs[1..])
  }

  /** `reduce((a, b) => a || b, false)`. */
  function AnyOf(bs: seq<bool>): (r: bool)
    ensures r <==> exists i :: 0 <= i < |bs| && bs[i]
  {
    if bs == [] then false
    else
      var r := AnyOf(bs[1..]);
      assert forall i :: 0 < i < |bs| ==> bs[1..][i - 1] == bs[i];
      bs[0] || r
  }

  /** `isAllCustom`: `false` (sensed) when every flag says sensed and none says
   *  custom, otherwise `true` (custom) when none says sensed and every one says
   *  custom, otherwise `undefined`. */
  function IsAllCustom(isSensedKeys: seq<bool>, isCustomKeys: seq<bool>): (r: Option<bool>)
    ensures r == Some(false) <==>
      (forall i :: 0 <= i < |isSensedKeys| ==> isSensedKeys[i]) &&
      (forall i :: 0 <= i < |isCustomKeys| ==> !isCustomKeys[i])
    ensures r == Some(true) <==>
      !((forall i :: 0 <= i < |isSensedKeys| ==> isSensedKeys[i]) &&
        (forall i :: 0 <= i < |isCustomKeys| ==> !isCustomKeys[i])) &&
      (forall i :: 0 <= i < |isSensedKeys| ==> !isSensedKeys[i]) &&
      (forall i :: 0 <= i < |isCustomKeys| ==> isCustomKeys[i])
  {
    var allSensed := AllOf(isSensedKeys);
    var anySensed := AnyOf(isSensedKeys);
    var allCustom := AllOf(isCustomKeys);
    var anyCustom := AnyOf(isCustomKeys);
    if allSensed && !anyCustom then Some(false)
    else if !anySensed && allCustom then Some(true)
    else None
  }

  /** The provenance of a corpus of keys, flag by flag as `isCustomLabels`
   *  computes it before collapsing it. */
  function KeyProvenance(keys: seq<string>): Option<bool>
  {
    IsAllCustom(SensedFlags(keys), CustomFlags(keys))
  }

  /** `keys.map(isSensed)`. */
  function SensedFlags(keys: seq<string>): (bs: seq<bool>)
    ensures |bs| == |keys| && forall i :: 0 <= i < |keys| ==> bs[i] == IsSensed(keys[i])
  {
    seq(|keys|, i requires 0 <= i < |keys| => IsSensed(keys[i]))
  }

  /** `keys.map(isCustom)`. */
  function CustomFlags(keys: seq<string>): (bs: seq<bool>)
    ensures |bs| == |keys| && forall i :: 0 <= i < |keys| ==> bs[i] == IsCustom(keys[i])
  {
    seq(|keys|, i requires 0 <= i < |keys| => IsCustom(keys[i]))
  }

  /** `modeMap.map((e) => e.key)`. */
  function SeriesKeys(modeMap: seq<ModeSeries>): (ks: seq<string>)
    ensures |ks| == |modeMap| && forall i :: 0 <= i < |modeMap| ==> ks[i] == modeMap[i].key
  {
    seq(|modeMap|, i requires 0 <= i < |modeMap| => modeMap[i].key)
  }

  /** The corpus is custom exactly when it is non-empty and every key is custom
   *  and none is sensed. */
  lemma {:induction false} KeyProvenanceIsCustom(keys: seq<string>)
    ensures KeyProvenance(keys) == Some(true) <==>
      |keys| > 0 && forall i :: 0 <= i < |keys| ==> IsCustom(keys[i]) && !IsSensed(keys[i])
  {
    var sensed, custom := SensedFlags(keys), CustomFlags(keys);
    if |keys| > 0 && forall i :: 0 <= i < |keys| ==> IsCustom(keys[i]) && !IsSensed(keys[i]) {
      assert !sensed[0];
    }
  }

  /** One key that is both sensed and custom (digits only, say) leaves the
   *  provenance undefined. */
  lemma {:induction false} AmbiguousKeyMakesProvenanceUndefined(keys: seq<string>, k: nat)
    requires k < |keys| && IsSensed(keys[k]) && IsCustom(keys[k])
    ensures KeyProvenance(keys).None?
  {
    var sensed, custom := SensedFlags(keys), CustomFlags(keys);
    assert sensed[k] && custom[k];
  }

  /** A sensed-only key beside a custom-only key leaves the provenance undefined. */
  lemma {:induction false} MixedKeysMakeProvenanceUndefined(keys: seq<string>, a: nat, b: nat)
    requires a < |keys| && IsSensed(keys[a]) && !IsCustom(keys[a])
    requires b < |keys| && IsCustom(keys[b]) && !IsSensed(keys[b])
    ensures KeyProvenance(keys).None?
  {
    var sensed, custom := SensedFlags(keys), CustomFlags(keys);
    assert sensed[a] && !sensed[b] && custom[b];
  }

  /** `isCustomLabels`: `true` exactly when the series keys are a non-empty corpus
   *  of custom labels none of which is sensed; the undefined (mixed) case and
   *  the sensed case both come out `false`. */
  function IsCustomLabels(modeMap: seq<ModeSeries>): (r: Option<bool>)
    ensures r == Some(|modeMap| > 0 &&
      forall i :: 0 <= i < |modeMap| ==> IsCustom(modeMap[i].key) && !IsSensed(modeMap[i].key))
  {
    var distanceKeys := SeriesKeys(modeMap);
    var isAllCustomForMetric := KeyProvenance(distanceKeys);
    KeyProvenanceIsCustom(distanceKeys);
    // `!undefined` is true and `Boolean(undefined)` is false
    var metricSummaryChecksSensed := [isAllCustomForMetric != Some(true)];
    var metricSummaryChecksCustom := [isAllCustomForMetric == Some(true)];
    IsAllCustom(metricSummaryChecksSensed, metricSummaryChecksCustom)
  }
}
