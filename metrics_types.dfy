/** The shapes of the metric data the metrics helper works on. */
module MetricsTypes {
  import opened Common

  /** One day of metric data: the day (a day number), the number of users it
   *  covers, and its `<groupingField>_<label>` keys with their values, in the
   *  order the record holds them. */
  datatype DayOfMetricData<V> = DayOfMetricData(date: int, nUsers: nat, fields: seq<(string, V)>)

  /** The value of a `response_count` key; either count may be absent. */
  datatype ResponseCount = ResponseCount(responded: Option<nat>, notResponded: Option<nat>)

  /** Whose numbers a metric entry holds: one user's, or all users' together. */
  datatype Population = User | Aggregate

  /** One entry handed to the series construction: its timestamp, its formatted
   *  time, the population size and its numeric keys in record order. */
  datatype MetricEntry = MetricEntry(ts: real, fmtTime: string, nUsers: nat, fields: seq<(string, real)>)

  /** One point of a series: `[ts, value, fmt_time]`. */
  datatype Point = Point(ts: real, value: real, fmtTime: string)

  /** One entry of the constructed series: `{ key, values }`. */
  datatype ModeSeries = ModeSeries(key: string, values: seq<Point>)

  /** One entry of a summary: `{ key, values }` with a single number, where
   *  `None` stands for `NaN` (the mean of an empty series). */
  datatype MetricsSummary = MetricsSummary(key: string, values: Option<int>)
}
