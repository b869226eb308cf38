/** Building per-label series from metric entries (`parseDataFromMetrics`):
 *  upper-case keys take the legacy path, where the on-foot modes are summed
 *  into one `ON_FOOT` point per day, and keys with a grouping-field prefix add
 *  a rounded point to their label's series. */
module MetricsSeries {
  import opened Common
  import opened MetricsTypes
  import MetricsKeys

  /** The modes considered on foot. */
  const ON_FOOT_MODES: seq<string> := ["WALKING", "RUNNING", "ON_FOOT"]

  /** The `for ... of` search with an early `return true`. */
  function IsAmong(mode: string, modes: seq<string>): (r: bool)
    ensures r <==> mode in modes
  {
    if modes == [] then false
    else if mode == modes[0] then true
    else IsAmong(mode, modes[1..])
  }

  /** `isOnFoot`. */
  function IsOnFoot(mode: string): (r: bool)
    ensures r <==> mode == "WALKING" || mode == "RUNNING" || mode == "ON_FOOT"
  {
    IsAmong(mode, ON_FOOT_MODES)
  }

  /** `metricToValue` applied to the value `raw` stored under the field: the value
   *  itself for one user, the value per user for the aggregate. */
  function MetricToValue(population: Population, raw: real, nUsers: nat): (r: real)
    requires population == Aggregate ==> nUsers > 0
    ensures population == User ==> r == raw
    ensures population == Aggregate ==> r * nUsers as real == raw
  {
    if population == User then raw else raw / nUsers as real
  }

  /** The `mode_bins` dictionary: each key's series, and the keys in the order
   *  they were added, which is the order `Object.entries` reports them in. */
  datatype ModeBins = ModeBins(series: map<string, seq<Point>>, order: seq<string>)

  ghost predicate Valid(b: ModeBins)
  {
    (forall k :: k in b.series <==> k in b.order) && NoDuplicates(b.order)
  }

  const EmptyBins := ModeBins(map[], [])

  /** The series held under `k`, or none. */
  function SeriesOf(b: ModeBins, k: string): seq<Point>
  {
    if k in b.series then b.series[k] else []
  }

  /** `if (!(key in mode_bins)) mode_bins[key] = []`. */
  function Ensure(b: ModeBins, key: string): (r: ModeBins)
    ensures Valid(b) ==> Valid(r)
    ensures key in r.series
    ensures forall k :: k in r.series <==> k in b.series || k == key
    ensures forall k :: SeriesOf(r, k) == SeriesOf(b, k)
    ensures b.order <= r.order
  {
    if key in b.series then b else ModeBins(b.series[key := []], b.order + [key])
  }

  /** `mode_bins[key].push(p)`. */
  function Push(b: ModeBins, key: string, p: Point): (r: ModeBins)
    requires key in b.series
    ensures Valid(b) ==> Valid(r)
    ensures r.series.Keys == b.series.Keys && r.order == b.order
    ensures forall k :: SeriesOf(r, k) == SeriesOf(b, k) + (if k == key then [p] else [])
  {
    b.(series := b.series[key := b.series[key] + [p]])
  }

  /** `Object.entries(mode_bins).map(([key, values]) => ({ key, values }))`. */
  function Entries(b: ModeBins): (r: seq<ModeSeries>)
    requires Valid(b)
    ensures |r| == |b.order|
    ensures forall i :: 0 <= i < |r| ==> r[i] == ModeSeries(b.order[i], b.series[b.order[i]])
  {
    seq(|b.order|, i requires 0 <= i < |b.order| => ModeSeries(b.order[i], b.series[b.order[i]]))
  }

  /** What the inner loop carries from key to key: the bins and `onFootVal`. */
  datatype FieldState = FieldState(bins: ModeBins, onFootVal: real)

  /** The inner loop's precondition on its inputs: the aggregate is divided by a
   *  positive user count, and the name `ON_FOOT` that the on-foot keys are
   *  renamed to carries no grouping-field label. */
  predicate Processable(groupingFields: seq<string>, population: Population, metric: MetricEntry)
  {
    && (population == Aggregate ==> metric.nUsers > 0)
    && MetricsKeys.GroupedLabel(groupingFields, "ON_FOOT").None?
  }

  /** One key of one metric entry, as the body of `for (let field in metric)`. */
  function StepField(groupingFields: seq<string>, population: Population, isoFormat: string -> string,
                     metric: MetricEntry, st: FieldState, field: string, value: real): (r: FieldState)
    requires Processable(groupingFields, population, metric)
    ensures Valid(st.bins) ==> Valid(r.bins)
  {
    var v := MetricToValue(population, value, metric.nUsers);
    var sensed := MetricsKeys.IsSensed(field);
    var onFoot := sensed && IsOnFoot(field);
    // legacy path: the key unchanged by upper-casing is a sensed mode
    var field' := if onFoot then "ON_FOOT" else field;
    var foot := if onFoot then st.onFootVal + v else st.onFootVal;
    var legacy :=
      if sensed then
        var b := Ensure(st.bins, field');
        if field' != "ON_FOOT" then Push(b, field', Point(metric.ts, v, metric.fmtTime)) else b
      else st.bins;
    // grouping-field path, on the possibly renamed field
    var trimmed := MetricsKeys.GroupedLabel(groupingFields, field');
    if trimmed.Some? then
      var b := Ensure(legacy, trimmed.value);
      FieldState(Push(b, trimmed.value, Point(metric.ts, Round(v) as real, isoFormat(metric.fmtTime))), foot)
    else
      FieldState(legacy, foot)
  }

  /** The keys `fields` of one entry processed in order. */
  function StepFields(groupingFields: seq<string>, population: Population, isoFormat: string -> string,
                      metric: MetricEntry, st: FieldState, fields: seq<(string, real)>): (r: FieldState)
    requires Processable(groupingFields, population, metric)
    ensures Valid(st.bins) ==> Valid(r.bins)
    decreases |fields|
  {
    if fields == [] then st
    else
      var prev := StepFields(groupingFields, population, isoFormat, metric, st, fields[..|fields| - 1]);
      StepField(groupingFields, population, isoFormat, metric, prev, fields[|fields| - 1].0, fields[|fields| - 1].1)
  }

  lemma StepFieldsSnoc(groupingFields: seq<string>, population: Population, isoFormat: string -> string,
                       metric: MetricEntry, st: FieldState, fields: seq<(string, real)>, j: nat)
    requires Processable(groupingFields, population, metric) && j < |fields|
    ensures StepFields(groupingFields, population, isoFormat, metric, st, fields[..j + 1]) ==
      StepField(groupingFields, population, isoFormat, metric,
        StepFields(groupingFields, population, isoFormat, metric, st, fields[..j]), fields[j].0, fields[j].1)
  {
    assert fields[..j + 1][..j] == fields[..j];
  }

  lemma BinsAfterSnoc(groupingFields: seq<string>, population: Population, isoFormat: string -> string,
                      metrics: seq<MetricEntry>, i: nat)
    requires forall i :: 0 <= i < |metrics| ==> Processable(groupingFields, population, metrics[i])
    requires i < |metrics|
    ensures BinsAfter(groupingFields, population, isoFormat, metrics[..i + 1]) ==
      StepDay(groupingFields, population, isoFormat, BinsAfter(groupingFields, population, isoFormat, metrics[..i]), metrics[i])
  {
    assert metrics[..i + 1][..i] == metrics[..i];
  }

  /** One entry: all its keys, then the day's `ON_FOOT` point whenever that bin exists. */
  function StepDay(groupingFields: seq<string>, population: Population, isoFormat: string -> string,
                   b: ModeBins, metric: MetricEntry): (r: ModeBins)
    requires Processable(groupingFields, population, metric)
    ensures Valid(b) ==> Valid(r)
  {
    var st := StepFields(groupingFields, population, isoFormat, metric, FieldState(b, 0.0), metric.fields);
    if "ON_FOOT" in st.bins.series then
      Push(st.bins, "ON_FOOT", Point(metric.ts, Round(st.onFootVal) as real, metric.fmtTime))
    else st.bins
  }

  /** The bins after the entries `metrics`, in order. */
  function BinsAfter(groupingFields: seq<string>, population: Population, isoFormat: string -> string,
                     metrics: seq<MetricEntry>): (r: ModeBins)
    requires forall i :: 0 <= i < |metrics| ==> Processable(groupingFields, population, metrics[i])
    ensures Valid(r)
    decreases |metrics|
  {
    if metrics == [] then EmptyBins
    else
      var prev := BinsAfter(groupingFields, population, isoFormat, metrics[..|metrics| - 1]);
      StepDay(groupingFields, population, isoFormat, prev, metrics[|metrics| - 1])
  }

  /** The body of `for (let field in metric)`, on the key `field` holding `value`. */
  method AddField(groupingFields: seq<string>, population: Population, isoFormat: string -> string,
                  metric: MetricEntry, modeBins: ModeBins, onFootVal: real, field: string, value: real)
    returns (bins: ModeBins, foot: real)
    requires Processable(groupingFields, population, metric)
    ensures FieldState(bins, foot) ==
      StepField(groupingFields, population, isoFormat, metric, FieldState(modeBins, onFootVal), field, value)
  {
    bins, foot := modeBins, onFootVal;
    var field := field;
    if field == ToUpper(field) {
      if IsOnFoot(field) {
        foot := foot + MetricToValue(population, value, metric.nUsers);
        field := "ON_FOOT";
      }
      bins := Ensure(bins, field);
      if field != "ON_FOOT" {
        bins := Push(bins, field, Point(metric.ts, MetricToValue(population, value, metric.nUsers), metric.fmtTime));
      }
    }
    var trimmedField := MetricsKeys.TrimGroupingPrefix(groupingFields, field);
    if trimmedField.Some? && trimmedField.value != "" {
      bins := Ensure(bins, trimmedField.value);
      bins := Push(bins, trimmedField.value,
        Point(metric.ts, Round(MetricToValue(population, value, metric.nUsers)) as real, isoFormat(metric.fmtTime)));
    }
  }

  /** The `for (let field in metric)` loop over one entry's keys, starting
   *  from the bins `start` and an on-foot sum of 0. */
  method AddFields(groupingFields: seq<string>, population: Population, isoFormat: string -> string,
                   metric: MetricEntry, start: ModeBins)
    returns (modeBins: ModeBins, onFootVal: real)
    requires Processable(groupingFields, population, metric)
    ensures FieldState(modeBins, onFootVal) ==
      StepFields(groupingFields, population, isoFormat, metric, FieldState(start, 0.0), metric.fields)
  {
    modeBins, onFootVal := start, 0.0;
    var j := 0;
    while j < |metric.fields|
      invariant 0 <= j <= |metric.fields|
      invariant FieldState(modeBins, onFootVal) ==
        StepFields(groupingFields, population, isoFormat, metric, FieldState(start, 0.0), metric.fields[..j])
    {
      modeBins, onFootVal := AddField(groupingFields, population, isoFormat, metric, modeBins, onFootVal,
                                      metric.fields[j].0, metric.fields[j].1);
      StepFieldsSnoc(groupingFields, population, isoFormat, metric, FieldState(start, 0.0), metric.fields, j);
      j := j + 1;
    }
    assert metric.fields[..|metric.fields|] == metric.fields;
  }

  /** `parseDataFromMetrics`: the series `mode_bins` holds after every entry,
   *  in the order their keys were first added. `undefined` metrics are the
   *  empty sequence. */
  method ParseDataFromMetrics(metrics: seq<MetricEntry>, population: Population,
                              groupingFields: seq<string>, isoFormat: string -> string)
    returns (r: seq<ModeSeries>)
    requires forall i :: 0 <= i < |metrics| ==> Processable(groupingFields, population, metrics[i])
    ensures r == Entries(BinsAfter(groupingFields, population, isoFormat, metrics))
  {
    var modeBins := EmptyBins;
    var i := 0;
    while i < |metrics|
      invariant 0 <= i <= |metrics|
      invariant modeBins == BinsAfter(groupingFields, population, isoFormat, metrics[..i])
    {
      var metric := metrics[i];
      var onFootVal;
      modeBins, onFootVal := AddFields(groupingFields, population, isoFormat, metric, modeBins);
      // handle the ON_FOOT modes once all have been summed
      if "ON_FOOT" in modeBins.series {
        modeBins := Push(modeBins, "ON_FOOT", Point(metric.ts, Round(onFootVal) as real, metric.fmtTime));
      }
      BinsAfterSnoc(groupingFields, population, isoFormat, metrics, i);
      i := i + 1;
    }
    assert metrics[..|metrics|] == metrics;
    r := Entries(modeBins);
  }

  /** What one key does to each series and to the on-foot sum: a sensed key that
   *  is not on foot gets an unrounded point under its own name, a key with a
   *  grouping-field label gets a rounded point under that label, and an on-foot
   *  key only adds its value to the sum (creating the `ON_FOOT` bin). */
  lemma {:induction false} StepFieldEffect(groupingFields: seq<string>, population: Population, isoFormat: string -> string,
                                           metric: MetricEntry, st: FieldState, field: string, value: real, k: string)
    requires Processable(groupingFields, population, metric)
    ensures var r := StepField(groupingFields, population, isoFormat, metric, st, field, value);
      var v := MetricToValue(population, value, metric.nUsers);
      var sensed := MetricsKeys.IsSensed(field);
      var onFoot := sensed && IsOnFoot(field);
      var tag := MetricsKeys.GroupedLabel(groupingFields, field);
      && r.onFootVal == (if onFoot then st.onFootVal + v else st.onFootVal)
      && SeriesOf(r.bins, k) == SeriesOf(st.bins, k)
           + (if sensed && !onFoot && k == field then [Point(metric.ts, v, metric.fmtTime)] else [])
           + (if !onFoot && tag == Some(k) then [Point(metric.ts, Round(v) as real, isoFormat(metric.fmtTime))] else [])
      && (k in r.bins.series <==>
            || k in st.bins.series
            || (onFoot && k == "ON_FOOT")
            || (sensed && !onFoot && k == field)
            || (!onFoot && tag == Some(k)))
  {
    var v := MetricToValue(population, value, metric.nUsers);
    var sensed := MetricsKeys.IsSensed(field);
    var onFoot := sensed && IsOnFoot(field);
    var field' := if onFoot then "ON_FOOT" else field;
    var legacy :=
      if sensed then
        var b := Ensure(st.bins, field');
        if field' != "ON_FOOT" then Push(b, field', Point(metric.ts, v, metric.fmtTime)) else b
      else st.bins;
    assert SeriesOf(legacy, k) == SeriesOf(st.bins, k)
      + (if sensed && !onFoot && k == field then [Point(metric.ts, v, metric.fmtTime)] else []);
    assert k in legacy.series <==>
      k in st.bins.series || (onFoot && k == "ON_FOOT") || (sensed && !onFoot && k == field);
    var r := StepField(groupingFields, population, isoFormat, metric, st, field, value);
    var tag := MetricsKeys.GroupedLabel(groupingFields, field');
    if onFoot {
      assert tag.None?;
      assert r.bins == legacy;
    } else if tag.Some? {
      var b := Ensure(legacy, tag.value);
      assert r.bins == Push(b, tag.value, Point(metric.ts, Round(v) as real, isoFormat(metric.fmtTime)));
    } else {
      assert r.bins == legacy;
    }
  }

  /** The sum of the on-foot values among `fields`, read in order. */
  function FootSum(population: Population, metric: MetricEntry, fields: seq<(string, real)>): real
    requires population == Aggregate ==> metric.nUsers > 0
    decreases |fields|
  {
    if fields == [] then 0.0
    else
      var f := fields[|fields| - 1];
      FootSum(population, metric, fields[..|fields| - 1])
        + (if MetricsKeys.IsSensed(f.0) && IsOnFoot(f.0) then MetricToValue(population, f.1, metric.nUsers) else 0.0)
  }

  /** Some key among `fields` is an on-foot mode. */
  ghost predicate HasOnFootKey(fields: seq<(string, real)>)
  {
    exists j :: 0 <= j < |fields| && MetricsKeys.IsSensed(fields[j].0) && IsOnFoot(fields[j].0)
  }

  lemma HasOnFootKeySnoc(fields: seq<(string, real)>)
    requires fields != []
    ensures var f := fields[|fields| - 1];
      HasOnFootKey(fields) <==>
        HasOnFootKey(fields[..|fields| - 1]) || (MetricsKeys.IsSensed(f.0) && IsOnFoot(f.0))
  {
    var init := fields[..|fields| - 1];
    if HasOnFootKey(init) {
      var j :| 0 <= j < |init| && MetricsKeys.IsSensed(init[j].0) && IsOnFoot(init[j].0);
      assert fields[j] == init[j];
    }
    if HasOnFootKey(fields) {
      var j :| 0 <= j < |fields| && MetricsKeys.IsSensed(fields[j].0) && IsOnFoot(fields[j].0);
      if j < |init| {
        assert fields[j] == init[j];
      }
    }
  }

  /** The inner loop leaves `onFootVal` at the sum of the entry's on-foot values. */
  lemma {:induction false} StepFieldsFootSum(groupingFields: seq<string>, population: Population, isoFormat: string -> string,
                                             metric: MetricEntry, st: FieldState, fields: seq<(string, real)>)
    requires Processable(groupingFields, population, metric)
    ensures StepFields(groupingFields, population, isoFormat, metric, st, fields).onFootVal
      == st.onFootVal + FootSum(population, metric, fields)
    decreases |fields|
  {
    if fields != [] {
      var init, f := fields[..|fields| - 1], fields[|fields| - 1];
      StepFieldsFootSum(groupingFields, population, isoFormat, metric, st, init);
      var prev := StepFields(groupingFields, population, isoFormat, metric, st, init);
      assert StepFields(groupingFields, population, isoFormat, metric, st, fields)
        == StepField(groupingFields, population, isoFormat, metric, prev, f.0, f.1);
      StepFieldEffect(groupingFields, population, isoFormat, metric, prev, f.0, f.1, "ON_FOOT");
    }
  }

  /** Once an on-foot key has been seen, the `ON_FOOT` bin exists. */
  lemma {:induction false} StepFieldsFootBin(groupingFields: seq<string>, population: Population, isoFormat: string -> string,
                                             metric: MetricEntry, st: FieldState, fields: seq<(string, real)>)
    requires Processable(groupingFields, population, metric)
    requires "ON_FOOT" in st.bins.series || HasOnFootKey(fields)
    ensures "ON_FOOT" in StepFields(groupingFields, population, isoFormat, metric, st, fields).bins.series
    decreases |fields|
  {
    if fields != [] {
      var init, f := fields[..|fields| - 1], fields[|fields| - 1];
      var prev := StepFields(groupingFields, population, isoFormat, metric, st, init);
      assert StepFields(groupingFields, population, isoFormat, metric, st, fields)
        == StepField(groupingFields, population, isoFormat, metric, prev, f.0, f.1);
      StepFieldEffect(groupingFields, population, isoFormat, metric, prev, f.0, f.1, "ON_FOOT");
      HasOnFootKeySnoc(fields);
      if "ON_FOOT" in st.bins.series || HasOnFootKey(init) {
        StepFieldsFootBin(groupingFields, population, isoFormat, metric, st, init);
      }
    }
  }

  /** Once the `ON_FOOT` bin exists (or the entry has an on-foot key), every
   *  entry ends it with one point: the entry's time and the rounded sum of its
   *  on-foot values. */
  lemma {:induction false} StepDayOnFoot(groupingFields: seq<string>, population: Population, isoFormat: string -> string,
                                         b: ModeBins, metric: MetricEntry)
    requires Processable(groupingFields, population, metric)
    requires "ON_FOOT" in b.series || HasOnFootKey(metric.fields)
    ensures var s := SeriesOf(StepDay(groupingFields, population, isoFormat, b, metric), "ON_FOOT");
      |s| > 0 && s[|s| - 1] == Point(metric.ts, Round(FootSum(population, metric, metric.fields)) as real, metric.fmtTime)
  {
    StepFieldsFootSum(groupingFields, population, isoFormat, metric, FieldState(b, 0.0), metric.fields);
    StepFieldsFootBin(groupingFields, population, isoFormat, metric, FieldState(b, 0.0), metric.fields);
  }

  /** The on-foot modes are sensed keys: `toUpperCase` leaves them unchanged. */
  lemma OnFootModesAreSensed()
    ensures forall m :: IsOnFoot(m) ==> MetricsKeys.IsSensed(m)
  {
    assert ToUpper("WALKING") == "WALKING";
    assert ToUpper("RUNNING") == "RUNNING";
    assert ToUpper("ON_FOOT") == "ON_FOOT";
  }

  /** A day's `WALKING`, `RUNNING` and `ON_FOOT` values are all summed into
   *  the on-foot value; with `StepDayOnFoot`, its `ON_FOOT` point holds their
   *  rounded sum. */
  lemma {:induction false} WalkingRunningAndOnFootAreSummed(population: Population, metric: MetricEntry,
                                                           walking: real, running: real, onFoot: real)
    requires population == Aggregate ==> metric.nUsers > 0
    ensures var n := metric.nUsers;
      FootSum(population, metric, [("WALKING", walking), ("RUNNING", running), ("ON_FOOT", onFoot)])
        == MetricToValue(population, walking, n) + MetricToValue(population, running, n) + MetricToValue(population, onFoot, n)
  {
    var fs := [("WALKING", walking), ("RUNNING", running), ("ON_FOOT", onFoot)];
    OnFootModesAreSensed();
    assert forall j :: 0 <= j < 3 ==> MetricsKeys.IsSensed(fs[j].0) && IsOnFoot(fs[j].0);
    assert fs[..2][..1] == fs[..1] && fs[..1][..0] == [];
    assert FootSum(population, metric, fs[..1]) == MetricToValue(population, walking, metric.nUsers);
    assert FootSum(population, metric, fs[..2])
      == MetricToValue(population, walking, metric.nUsers) + MetricToValue(population, running, metric.nUsers);
  }

  /** `b'` holds every key of `b`, in the same order, each series extended. */
  ghost predicate Extends(b: ModeBins, b': ModeBins)
  {
    && b.order <= b'.order
    && forall k :: k in b.series ==> k in b'.series && b.series[k] <= b'.series[k]
  }

  /** Every series is non-empty, except perhaps the one under `except`. */
  ghost predicate NonEmptyExcept(b: ModeBins, except: Option<string>)
  {
    forall k :: k in b.series && Some(k) != except ==> b.series[k] != []
  }

  lemma {:induction false} StepFieldsExtend(groupingFields: seq<string>, population: Population, isoFormat: string -> string,
                                            metric: MetricEntry, st: FieldState, fields: seq<(string, real)>)
    requires Processable(groupingFields, population, metric)
    ensures var r := StepFields(groupingFields, population, isoFormat, metric, st, fields);
      && Extends(st.bins, r.bins)
      && (NonEmptyExcept(st.bins, Some("ON_FOOT")) ==> NonEmptyExcept(r.bins, Some("ON_FOOT")))
    decreases |fields|
  {
    if fields != [] {
      var init, f := fields[..|fields| - 1], fields[|fields| - 1];
      StepFieldsExtend(groupingFields, population, isoFormat, metric, st, init);
      var prev := StepFields(groupingFields, population, isoFormat, metric, st, init);
      var r := StepField(groupingFields, population, isoFormat, metric, prev, f.0, f.1);
      forall k ensures k in prev.bins.series ==> k in r.bins.series && prev.bins.series[k] <= r.bins.series[k]
        ensures NonEmptyExcept(prev.bins, Some("ON_FOOT")) && k in r.bins.series && k != "ON_FOOT" ==> r.bins.series[k] != []
      {
        StepFieldEffect(groupingFields, population, isoFormat, metric, prev, f.0, f.1, k);
      }
    }
  }

  /** One entry only extends the bins, and leaves no series empty. */
  lemma {:induction false} StepDayExtends(groupingFields: seq<string>, population: Population, isoFormat: string -> string,
                                          b: ModeBins, metric: MetricEntry)
    requires Processable(groupingFields, population, metric)
    ensures var r := StepDay(groupingFields, population, isoFormat, b, metric);
      Extends(b, r) && (NonEmptyExcept(b, None) ==> NonEmptyExcept(r, None))
  {
    StepFieldsExtend(groupingFields, population, isoFormat, metric, FieldState(b, 0.0), metric.fields);
  }

  /** The bins after a prefix of the entries are extended by the later ones:
   *  a series once started is never rewritten, only appended to. */
  lemma {:induction false} BinsAfterPrefix(groupingFields: seq<string>, population: Population, isoFormat: string -> string,
                                           metrics: seq<MetricEntry>, n: nat)
    requires forall i :: 0 <= i < |metrics| ==> Processable(groupingFields, population, metrics[i])
    requires n <= |metrics|
    ensures Extends(BinsAfter(groupingFields, population, isoFormat, metrics[..n]),
                    BinsAfter(groupingFields, population, isoFormat, metrics))
    decreases |metrics|
  {
    if n == |metrics| {
      assert metrics[..n] == metrics;
    } else {
      var init := metrics[..|metrics| - 1];
      assert init[..n] == metrics[..n];
      BinsAfterPrefix(groupingFields, population, isoFormat, init, n);
      StepDayExtends(groupingFields, population, isoFormat, BinsAfter(groupingFields, population, isoFormat, init), metrics[|metrics| - 1]);
    }
  }

  /** No constructed series is empty: every key was added by an entry that
   *  also gave it a point. */
  lemma {:induction false} SeriesAreNonEmpty(groupingFields: seq<string>, population: Population, isoFormat: string -> string,
                                             metrics: seq<MetricEntry>)
    requires forall i :: 0 <= i < |metrics| ==> Processable(groupingFields, population, metrics[i])
    ensures var es := Entries(BinsAfter(groupingFields, population, isoFormat, metrics));
      forall i :: 0 <= i < |es| ==> es[i].values != []
  {
    BinsAfterNonEmpty(groupingFields, population, isoFormat, metrics);
  }

  lemma {:induction false} BinsAfterNonEmpty(groupingFields: seq<string>, population: Population, isoFormat: string -> string,
                                             metrics: seq<MetricEntry>)
    requires forall i :: 0 <= i < |metrics| ==> Processable(groupingFields, population, metrics[i])
    ensures NonEmptyExcept(BinsAfter(groupingFields, population, isoFormat, metrics), None)
    decreases |metrics|
  {
    if metrics != [] {
      var init := metrics[..|metrics| - 1];
      BinsAfterNonEmpty(groupingFields, population, isoFormat, init);
      StepDayExtends(groupingFields, population, isoFormat, BinsAfter(groupingFields, population, isoFormat, init), metrics[|metrics| - 1]);
    }
  }

  /** Each constructed series is listed once. */
  lemma EntriesHaveDistinctKeys(groupingFields: seq<string>, population: Population, isoFormat: string -> string,
                                metrics: seq<MetricEntry>)
    requires forall i :: 0 <= i < |metrics| ==> Processable(groupingFields, population, metrics[i])
    ensures var es := Entries(BinsAfter(groupingFields, population, isoFormat, metrics));
      forall i, j :: 0 <= i < j < |es| ==> es[i].key != es[j].key
  {
  }
}
