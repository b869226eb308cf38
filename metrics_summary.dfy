/** Reducing each series to one rounded number (`generateSummaryFromData`):
 *  the total of its values, or their mean for `mean_speed`. */
module MetricsSummary {
  import opened Common
  import opened MetricsTypes
  import MetricsSeries

  /** The values of a series added up in order. */
  function SumValues(values: seq<Point>): real
    decreases |values|
  {
    if values == [] then 0.0 else SumValues(values[..|values| - 1]) + values[|values| - 1].value
  }

  lemma {:induction false} SumValuesAppend(a: seq<Point>, b: seq<Point>)
    ensures SumValues(a + b) == SumValues(a) + SumValues(b)
    decreases |b|
  {
    if b == [] {
      assert a + b == a;
    } else {
      assert (a + b)[..|a + b| - 1] == a + b[..|b| - 1];
      SumValuesAppend(a, b[..|b| - 1]);
    }
  }

  /** The number a series reduces to: `Math.round` of the sum, or of the mean
   *  for `mean_speed`, whose empty series gives `NaN`. */
  function Summarize(s: ModeSeries, metric: string): (r: MetricsSummary)
    ensures r.key == s.key
    ensures r.values.None? <==> metric == "mean_speed" && s.values == []
    ensures metric != "mean_speed" ==> r.values == Some(Round(SumValues(s.values)))
    ensures metric == "mean_speed" && s.values != [] ==>
      r.values == Some(Round(SumValues(s.values) / |s.values| as real))
  {
    if metric == "mean_speed" then
      if s.values == [] then MetricsSummary(s.key, None)
      else MetricsSummary(s.key, Some(Round(SumValues(s.values) / |s.values| as real)))
    else MetricsSummary(s.key, Some(Round(SumValues(s.values))))
  }

  function Summaries(modeMap: seq<ModeSeries>, metric: string): (r: seq<MetricsSummary>)
    ensures |r| == |modeMap| && forall i :: 0 <= i < |modeMap| ==> r[i] == Summarize(modeMap[i], metric)
  {
    seq(|modeMap|, i requires 0 <= i < |modeMap| => Summarize(modeMap[i], metric))
  }

  /** `generateSummaryFromData`: one summary per series, in order. */
  method GenerateSummaryFromData(modeMap: seq<ModeSeries>, metric: string) returns (summaryMap: seq<MetricsSummary>)
    ensures summaryMap == Summaries(modeMap, metric)
  {
    summaryMap := [];
    var i := 0;
    while i < |modeMap|
      invariant 0 <= i <= |modeMap|
      invariant summaryMap == Summaries(modeMap[..i], metric)
    {
      var values := modeMap[i].values;
      var vals := 0.0;
      var j := 0;
      while j < |values|
        invariant 0 <= j <= |values|
        invariant vals == SumValues(values[..j])
      {
        assert values[..j + 1][..j] == values[..j];
        vals := vals + values[j].value;
        j := j + 1;
      }
      assert values[..|values|] == values;
      var rounded: Option<int>;
      if metric == "mean_speed" {
        // for speed, take the average; for other metrics keep the sum
        rounded := if values == [] then None else Some(Round(vals / |values| as real));
      } else {
        rounded := Some(Round(vals));
      }
      summaryMap := summaryMap + [MetricsSummary(modeMap[i].key, rounded)];
      i := i + 1;
    }
  }

  /** Points whose values all lie in `[lo, hi]` sum to between `lo` and `hi`
   *  times their number. */
  lemma {:induction false} SumValuesBounds(values: seq<Point>, lo: real, hi: real)
    requires forall j :: 0 <= j < |values| ==> lo <= values[j].value <= hi
    ensures lo * |values| as real <= SumValues(values) <= hi * |values| as real
    decreases |values|
  {
    if values != [] {
      SumValuesBounds(values[..|values| - 1], lo, hi);
    }
  }

  /** A `mean_speed` summary lies, up to rounding, between the slowest and the
   *  fastest value of its series. */
  lemma MeanSpeedWithinRange(s: ModeSeries, lo: real, hi: real)
    requires s.values != []
    requires forall j :: 0 <= j < |s.values| ==> lo <= s.values[j].value <= hi
    ensures var r := Summarize(s, "mean_speed").values;
      r.Some? && lo - 0.5 < r.value as real <= hi + 0.5
  {
    SumValuesBounds(s.values, lo, hi);
    var n := |s.values| as real;
    var m := SumValues(s.values) / n;
    assert lo * n <= m * n <= hi * n;
  }

  /** Summing a series made of two runs of points gives, before rounding, the
   *  total of the two runs. */
  lemma SumSummaryOfJoinedSeries(key: string, a: seq<Point>, b: seq<Point>, metric: string)
    requires metric != "mean_speed"
    ensures Summarize(ModeSeries(key, a + b), metric).values == Some(Round(SumValues(a) + SumValues(b)))
  {
    SumValuesAppend(a, b);
  }

  /** The series `parseDataFromMetrics` builds are never empty, so none of
   *  their summaries is `NaN`, whatever the metric. */
  lemma {:induction false} ParsedSeriesSummariesAreNumbers(groupingFields: seq<string>, population: Population,
                                                          isoFormat: string -> string, metrics: seq<MetricEntry>, metric: string)
    requires forall i :: 0 <= i < |metrics| ==> MetricsSeries.Processable(groupingFields, population, metrics[i])
    ensures var ss := Summaries(MetricsSeries.Entries(MetricsSeries.BinsAfter(groupingFields, population, isoFormat, metrics)), metric);
      forall i :: 0 <= i < |ss| ==> ss[i].values.Some?
  {
    MetricsSeries.SeriesAreNonEmpty(groupingFields, population, isoFormat, metrics);
  }
}
