# Metrics aggregation and mode classification of e-mission-phone, in Dafny

This project models two helper files of the e-mission phone app and proves
properties of the model.

- **The metrics helper** turns per-day metric records into display data.
  - Each record holds keys named `<groupingField>_<label>`.
  - It strips the grouping-field prefix from a key and collects each day's labels.
  - It collects the distinct labels of many days.
  - It splits days into week buckets, most recent first.
  - It builds the per-mode series. Upper-case sensed keys take a legacy path in which `WALKING`, `RUNNING` and `ON_FOOT` are folded into one `ON_FOOT` point per day.
  - It reduces each series to one rounded number: a sum, or a mean for `mean_speed`.
  - It decides from letter case whether a set of labels is sensed or custom.
  - It reads a value back by field and label.
  - It memoises day timestamps.
  - It formats the `count` and `response_count` units.
- **The diary helper** maps motion types and label options to base modes. It computes a trip's detected modes: the distance per sensed mode, sorted by decreasing distance, each with its rounded percentage.

One Dafny module per concern:

| module | file |
|---|---|
| `Common` | `common.dfy`: `Math.round`, ASCII case conversion, `startsWith`/`substring`, first-occurrence de-duplication |
| `MetricsTypes` | `metrics_types.dfy` |
| `MetricsKeys` | `metrics_keys.dfy` |
| `MetricsWeeks` | `metrics_weeks.dfy` |
| `MetricsSeries` | `metrics_series.dfy` |
| `MetricsSummary` | `metrics_summary.dfy` |
| `MetricsUnits` | `metrics_units.dfy` |
| `MetricsCache` | `metrics_cache.dfy` |
| `DiaryModes` | `diary_modes.dfy` |
| `DetectedModes` | `detected_modes.dfy` |

**Modelling choices.**
- The code that loops and mutates stays imperative: `segmentDaysByWeeks`, `parseDataFromMetrics`, `generateSummaryFromData`, `getUniqueLabelsForDays`, `getDetectedModes` and the timestamp cache. Most of these methods are proved equal to a specification function, and the properties are proved about that function. `SegmentDaysByWeeks` states the properties of its buckets directly in its postcondition. `TsCache.TsForDay` states the new cache and the returned timestamp.
- A mutated dictionary (`mode_bins`, `dists`) is a `map` plus the sequence of its keys in insertion order. That order is what `Object.entries` reports.
- Numbers are exact reals.
  - `Math.round(x)` is `floor(x + 0.5)`.
  - `NaN` appears where the code can produce it: the mean of an empty series, and a zero total distance. It is an explicit value there.
- A record's fields are a sequence of `(key, value)` pairs in property order.

**Behaviours of the code that the names do not make obvious:**
- `filterRunning` folds only `'MotionTypes.RUNNING'` into `'MotionTypes.WALKING'`. A plain `RUNNING` section is not folded; its mode has no table entry and shows as `UNKNOWN` (`DiaryModes.PlainRunningShowsAsUnknown`).
- `metricToValue` has no guard for `nUsers = 0`; for the aggregate population it divides by the count.
- `segmentDaysByWeeks` opens a new bucket only for a day strictly older than the cutoff.
  - A day exactly seven days before the reference date therefore stays in the first bucket. The days 2023-06-01 and 2023-06-08 with reference date 2023-06-08 give one bucket (`MetricsWeeks.NoDayOlderThanAWeekGivesOneBucket`).
  - A gap of several weeks opens one bucket, not one empty bucket per missing week. Only the first bucket can be empty.

## Model

| member | source | states |
|---|---|---|
| Common.Round | www/js/metrics/metricsHelper.ts:145 | `Math.round` gives an integer within half a unit of its argument, halves rounded up |
| Common.RoundIsUnique | www/js/metrics/metricsHelper.ts:186 | the rounded value is the only integer in `(x - 1/2, x + 1/2]` |
| Common.Dedup | www/js/metrics/metricsHelper.ts:14-15 | the `includes`-guarded pushes keep no duplicate, keep exactly the elements seen, and never grow past the input |
| Common.DedupKeepsFirstOccurrenceOrder | www/js/metrics/metricsHelper.ts:11-18 | the kept elements come in the order of their first occurrences |
| MetricsKeys.TrimGroupingPrefix | www/js/metrics/metricsHelper.ts:28-34 | `undefined` exactly when the key starts with no grouping field; otherwise the key minus its first matching field (in list order) and one separator character |
| MetricsKeys.TrimFieldKey | www/js/metrics/metricsHelper.ts:28-34 | `<field><sep><suffix>` trims back to `suffix` when `field` is the first matching grouping field |
| MetricsKeys.TrimKeyEqualToField | www/js/metrics/metricsHelper.ts:28-34 | a key equal to its grouping field trims to `''`, which the callers ignore |
| MetricsKeys.GetLabelsForDay | www/js/metrics/metricsHelper.ts:36-41 | a day never has more labels than keys; exactly which labels is stated by GetLabelsForDayMembers |
| MetricsKeys.GetLabelsForDayMembers | www/js/metrics/metricsHelper.ts:36-41 | a day's labels are exactly the non-empty trimmed forms of its keys |
| MetricsKeys.AllLabelsMembers | www/js/metrics/metricsHelper.ts:11-18 | a label is among all days' labels exactly when some day has it |
| MetricsKeys.GetUniqueLabelsForDays | www/js/metrics/metricsHelper.ts:9-20 | the loop returns the first-occurrence de-duplication of all days' labels, in visiting order |
| MetricsKeys.AddDayLabels | www/js/metrics/metricsHelper.ts:12-17 | the inner loop appends each new non-empty label of one day once |
| MetricsKeys.UniqueLabelsForDays | www/js/metrics/metricsHelper.ts:9-20 | the result has no duplicate and no `''`; it holds exactly the labels of the days' keys, in first-occurrence order |
| MetricsKeys.Lookup | www/js/metrics/metricsHelper.ts:166-167 | the value stored under a key is absent exactly when no pair has that key |
| MetricsKeys.ValueForFieldOnDay | www/js/metrics/metricsHelper.ts:166-167 | `day[field_key]` is absent exactly when the day has no `field_key` entry, and otherwise is one of its values |
| MetricsKeys.ValueForFieldOnDayInvertsTrim | www/js/metrics/metricsHelper.ts:166-167 | a present `field_key` whose first matching grouping field is `field` gives `key` among the day's labels and a value for `(field, key)` |
| MetricsKeys.AllOf | www/js/metrics/metricsHelper.ts:219 | the `&&`-reduce is true iff every flag is |
| MetricsKeys.AnyOf | www/js/metrics/metricsHelper.ts:220 | the `\|\|`-reduce is true iff some flag is |
| MetricsKeys.IsSensed | www/js/metrics/metricsHelper.ts:201 | a key is sensed, i.e. unchanged by `toUpperCase`, exactly when it holds no lower-case letter |
| MetricsKeys.IsCustom | www/js/metrics/metricsHelper.ts:202 | a key is custom, i.e. unchanged by `toLowerCase`, exactly when it holds no upper-case letter |
| MetricsKeys.IsAllCustom | www/js/metrics/metricsHelper.ts:218-232 | `false` iff every key is sensed and none custom; otherwise `true` iff none is sensed and every one custom; else `undefined` |
| MetricsKeys.KeyProvenanceIsCustom | www/js/metrics/metricsHelper.ts:201-210 | the provenance is custom iff the corpus is non-empty and every key is lower case and not upper case |
| MetricsKeys.AmbiguousKeyMakesProvenanceUndefined | www/js/metrics/metricsHelper.ts:218-232 | a key both upper and lower case (digits only, say) makes the provenance `undefined` |
| MetricsKeys.MixedKeysMakeProvenanceUndefined | www/js/metrics/metricsHelper.ts:218-232 | one sensed-only key beside one custom-only key makes the provenance `undefined` |
| MetricsKeys.IsCustomLabels | www/js/metrics/metricsHelper.ts:200-216 | true exactly for a non-empty set of custom, non-sensed series keys; the sensed and the undefined cases both give false |
| MetricsWeeks.SegmentDaysByWeeks | www/js/metrics/metricsHelper.ts:47-59 | read in reverse, the buckets give back the days; bucket `k > 0` is non-empty and its most recent day is older than `lastDate - 7k`; every day of bucket `k` except the one that opened it is no older than `lastDate - 7(k+1)`; no days give `[[]]`; there are at most one more buckets than days |
| MetricsWeeks.WalkStep | www/js/metrics/metricsHelper.ts:50-57 | one day of the backwards walk keeps the contents and the cutoff invariants of the buckets |
| MetricsWeeks.ConcatOfReversedBuckets | www/js/metrics/metricsHelper.ts:58 | reversing each bucket and reading the buckets in reverse undoes the backwards walk |
| MetricsWeeks.NoDayOlderThanAWeekGivesOneBucket | www/js/metrics/metricsHelper.ts:49-55 | when no day is older than `lastDate - 7`, the only buckets meeting the promise above are one bucket holding every day |
| MetricsWeeks.IsoDatesDifference | www/js/metrics/metricsHelper.ts:52 | the difference from `a` to `b` is positive exactly when `a` is the older day, and 0 exactly on the same day |
| MetricsWeeks.IsoDateWithOffset | www/js/metrics/metricsHelper.ts:49 | the day at an offset lies that many days from the starting day, as `isoDatesDifference` measures it |
| MetricsWeeks.ReverseEach | www/js/metrics/metricsHelper.ts:58 | `weeks.map(week => week.reverse())`: the same number of buckets, each reversed |
| MetricsSeries.IsOnFoot | www/js/metrics/metricsHelper.ts:91-98 | true exactly for `WALKING`, `RUNNING` and `ON_FOOT` |
| MetricsSeries.MetricToValue | www/js/metrics/metricsHelper.ts:86-87 | the raw value for one user; for the aggregate, the value that multiplied by `nUsers` gives the raw value |
| MetricsSeries.Ensure | www/js/metrics/metricsHelper.ts:125-127 | creating a bin adds only that key, leaves every series unchanged and keeps the key order as a prefix |
| MetricsSeries.Push | www/js/metrics/metricsHelper.ts:130-134 | a push appends the point to that key's series only, with keys and key order unchanged |
| MetricsSeries.Entries | www/js/metrics/metricsHelper.ts:156 | one `{ key, values }` per bin, in insertion order |
| MetricsSeries.StepField | www/js/metrics/metricsHelper.ts:116-148 | one key's step keeps the bins well formed (the key order lists each bin once); its full effect is stated by StepFieldEffect |
| MetricsSeries.StepDay | www/js/metrics/metricsHelper.ts:113-154 | one metric entry's steps, then the `ON_FOOT` point, keep the bins well formed; StepDayOnFoot and StepDayExtends state the effect |
| MetricsSeries.BinsAfter | www/js/metrics/metricsHelper.ts:113-154 | the bins after the `forEach` over all entries are well formed; BinsAfterPrefix, SeriesAreNonEmpty and EntriesHaveDistinctKeys state what they hold |
| MetricsSeries.AddField | www/js/metrics/metricsHelper.ts:116-149 | the body for one key takes the bins and the on-foot sum to this key's step of the specification |
| MetricsSeries.AddFields | www/js/metrics/metricsHelper.ts:114-149 | the loop over one entry's keys takes the bins to the keys' steps applied in order |
| MetricsSeries.ParseDataFromMetrics | www/js/metrics/metricsHelper.ts:109-157 | the returned series are the entries of the bins after every metric entry in order, with each entry's `ON_FOOT` point |
| MetricsSeries.StepFieldEffect | www/js/metrics/metricsHelper.ts:116-148 | a sensed key that is not on foot gets an unrounded point under its own name; a labelled key gets a rounded point under its label; an on-foot key only adds to the sum and creates the `ON_FOOT` bin; nothing else changes |
| MetricsSeries.StepFieldsFootSum | www/js/metrics/metricsHelper.ts:119-124 | after the inner loop `onFootVal` is the sum of the entry's on-foot values |
| MetricsSeries.StepFieldsFootBin | www/js/metrics/metricsHelper.ts:121-127 | once an on-foot key has been seen, the `ON_FOOT` bin exists |
| MetricsSeries.StepDayOnFoot | www/js/metrics/metricsHelper.ts:150-153 | once the `ON_FOOT` bin exists, each later entry ends it with one point: the entry's time and the rounded on-foot sum, even when that sum is 0 |
| MetricsSeries.WalkingRunningAndOnFootAreSummed | www/js/metrics/metricsHelper.ts:119-124 | a day's `WALKING`, `RUNNING` and `ON_FOOT` values add up to the on-foot sum |
| MetricsSeries.OnFootModesAreSensed | www/js/metrics/metricsHelper.ts:78 | every on-foot mode is unchanged by upper-casing, so it takes the legacy path |
| MetricsSeries.BinsAfterPrefix | www/js/metrics/metricsHelper.ts:113-154 | later entries only append: every key and every series after a prefix of the entries survives as a prefix |
| MetricsSeries.SeriesAreNonEmpty | www/js/metrics/metricsHelper.ts:125-153 | no constructed series is empty |
| MetricsSeries.EntriesHaveDistinctKeys | www/js/metrics/metricsHelper.ts:156 | each series key is listed once |
| MetricsSummary.Summarize | www/js/metrics/metricsHelper.ts:176-187 | keeps the key; `mean_speed` gives the rounded mean, or `NaN` for an empty series; every other metric gives the rounded sum |
| MetricsSummary.GenerateSummaryFromData | www/js/metrics/metricsHelper.ts:170-191 | the nested loops return one summary per series, in order |
| MetricsSummary.SumValuesAppend | www/js/metrics/metricsHelper.ts:177-179 | the sum of two runs of points is the sum of their sums |
| MetricsSummary.SumValuesBounds | www/js/metrics/metricsHelper.ts:177-179 | values within `[lo, hi]` sum to between `lo` and `hi` times their count |
| MetricsSummary.MeanSpeedWithinRange | www/js/metrics/metricsHelper.ts:180-186 | a `mean_speed` summary lies, up to rounding, between the slowest and the fastest value |
| MetricsSummary.SumSummaryOfJoinedSeries | www/js/metrics/metricsHelper.ts:176-187 | summing a joined series rounds the total of the two parts |
| MetricsSummary.ParsedSeriesSummariesAreNumbers | www/js/metrics/metricsHelper.ts:170-191 | summaries of the series built from metrics are never `NaN` |
| MetricsCache.TsCache.TsForDay | www/js/metrics/metricsHelper.ts:159-164 | returns the day's converted timestamp, caches it on the first request, and keeps every cached value equal to its conversion |
| MetricsCache.RepeatedRequest | www/js/metrics/metricsHelper.ts:160-164 | two requests for a day give the same timestamp, and the second adds nothing to the cache |
| MetricsUnits.NatToString | www/js/metrics/metricsHelper.ts:252 | a count is written as non-empty decimal digits without a leading zero |
| MetricsUnits.ParseNatToString | www/js/metrics/metricsHelper.ts:252 | reading the written digits gives back the count |
| MetricsUnits.CountDisplay | www/js/metrics/metricsHelper.ts:252 | the `count` display starts with a digit and ends with one space and the trips label |
| MetricsUnits.ResponseValue | www/js/metrics/metricsHelper.ts:255 | `v.responded \|\| 0`: the responded count, or 0 when absent |
| MetricsUnits.ResponseDisplay | www/js/metrics/metricsHelper.ts:256-260 | the `response_count` display starts with a digit and ends with one space and the responses label |
| MetricsUnits.CountRow | www/js/metrics/metricsHelper.ts:252 | the `count` row's label is the trips label and its conversion is the identity |
| MetricsUnits.ResponseCountRow | www/js/metrics/metricsHelper.ts:253-261 | the `response_count` row's label is the responses label and its conversion is the responded count, 0 when absent |
| MetricsUnits.CountDisplayReadsBack | www/js/metrics/metricsHelper.ts:252 | reading the `count` display back gives the converted count and the trips label |
| MetricsUnits.ResponseTotal | www/js/metrics/metricsHelper.ts:257-258 | the total is at least the responded count and exceeds it by the not-responded count, absent counts read as 0 |
| MetricsUnits.ResponseDisplayReadsBack | www/js/metrics/metricsHelper.ts:253-261 | reading the `response_count` display back gives the responded count, the sum of both counts (absent ones read as 0) and the responses label |
| MetricsUnits.RowsDisplayTheirConversion | www/js/metrics/metricsHelper.ts:252-261 | in both rows the display reads back as the row's converted value and its unit suffix; the shown total is never below the responded count |
| DiaryModes.LastSegment | www/js/diary/diaryHelper.ts:75 | `split('.').pop()` is the suffix after the last `.`, holds no `.`, and is the whole text when there is no `.` |
| DiaryModes.GetBaseModeByKey | www/js/diary/diaryHelper.ts:71-77 | always an entry of the table |
| DiaryModes.BaseModeByKeyIsTableEntry | www/js/diary/diaryHelper.ts:71-77 | the entry named by the upper-cased last segment, and `UNKNOWN` exactly when the table has none |
| DiaryModes.TableNamesAreKeys | www/js/diary/diaryHelper.ts:39-64 | every entry's name is its key |
| DiaryModes.BaseModeByKeyIgnoresCase | www/js/diary/diaryHelper.ts:74 | the lookup ignores case |
| DiaryModes.BaseModeByKeyIgnoresMotionTypesPrefix | www/js/diary/diaryHelper.ts:75 | `MotionTypes.<key>` resolves as `<key>` does |
| DiaryModes.TableKeysResolveToTheirEntries | www/js/diary/diaryHelper.ts:39-77 | each key finds its own entry, in capitals, in lower case and with the `MotionTypes.` prefix |
| DiaryModes.AbsentKeyIsUnknown | www/js/diary/diaryHelper.ts:76 | a capital key missing from the table shows as `UNKNOWN`, with or without the prefix |
| DiaryModes.MissingMotionTypesAreUnknown | www/js/diary/diaryHelper.ts:26-37 | `STILL`, `TILTING`, `RUNNING`, `NONE` and `STOPPED_WHILE_IN_VEHICLE` show as `UNKNOWN` |
| DiaryModes.FindOption | www/js/diary/diaryHelper.ts:82 | `find` gives nothing exactly when the options are absent or none matches; otherwise the first matching option |
| DiaryModes.BaseModeKeyOf | www/js/diary/diaryHelper.ts:83 | `baseMode \|\| 'OTHER'` is never empty |
| DiaryModes.GetBaseModeByValue | www/js/diary/diaryHelper.ts:86-89 | always an entry of the table |
| DiaryModes.GetBaseModeByText | www/js/diary/diaryHelper.ts:91-94 | always an entry of the table |
| DiaryModes.GetBaseModeOfLabeledTrip | www/js/diary/diaryHelper.ts:79-84 | `null` exactly for a trip without a (non-empty) mode label; otherwise an entry of the table |
| DiaryModes.LabeledTripUsesValueLookup | www/js/diary/diaryHelper.ts:79-89 | a labelled trip gets what the lookup by value gives for its label |
| DiaryModes.NoMatchingOptionGivesOther | www/js/diary/diaryHelper.ts:82-93 | with no matching option both lookups give `OTHER` |
| DiaryModes.FirstMatchingOptionDecides | www/js/diary/diaryHelper.ts:82-93 | the first matching option decides through its base mode, or `OTHER` when it has none |
| DiaryModes.FilterRunning | www/js/diary/diaryHelper.ts:165 | the fold changes a mode exactly when it is `'MotionTypes.RUNNING'`, and then into `'MotionTypes.WALKING'` |
| DiaryModes.FilterRunningFoldsOnlyDottedRunning | www/js/diary/diaryHelper.ts:165 | the fold is idempotent and changes exactly `'MotionTypes.RUNNING'` |
| DiaryModes.DottedRunningShowsAsWalking | www/js/diary/diaryHelper.ts:165 | the dotted running type shows as `WALKING` |
| DiaryModes.PlainRunningShowsAsUnknown | www/js/diary/diaryHelper.ts:165 | plain `RUNNING` is not folded and shows as `UNKNOWN` |
| DetectedModes.FilteredModes | www/js/diary/diaryHelper.ts:174 | each section's mode after `filterRunning`, in order |
| DetectedModes.AddDistance | www/js/diary/diaryHelper.ts:175 | adds the distance to that mode only (absent reads as 0) and appends a new mode to the key order |
| DetectedModes.Accumulate | www/js/diary/diaryHelper.ts:173-177 | the `dists` record built by the `forEach` is well formed (its key order lists each key once); AccumulateMeaning states its contents |
| DetectedModes.TotalDistance | www/js/diary/diaryHelper.ts:171-176 | `totalDist` is not negative when no section distance is |
| DetectedModes.AccumulateMeaning | www/js/diary/diaryHelper.ts:173-177 | the record lists each filtered mode once, in first-appearance order, with the distance of that mode's sections |
| DetectedModes.ModeDistancesSumToTotal | www/js/diary/diaryHelper.ts:173-177 | the per-mode distances add up to the total distance |
| DetectedModes.DistOfWithinTotal | www/js/diary/diaryHelper.ts:173-177 | with no negative distance, each mode's distance is between 0 and the total |
| DetectedModes.SortPermutes | www/js/diary/diaryHelper.ts:180-182 | the sort only reorders the keys |
| DetectedModes.SortIsSorted | www/js/diary/diaryHelper.ts:180-182 | the keys come by decreasing distance |
| DetectedModes.SortIsStable | www/js/diary/diaryHelper.ts:180-182 | keys of equal distance keep their relative order |
| DetectedModes.SortByDist | www/js/diary/diaryHelper.ts:180-182 | the sort keeps the number of keys; SortPermutes, SortIsSorted and SortIsStable state that it is a stable descending permutation |
| DetectedModes.PctOf | www/js/diary/diaryHelper.ts:184-189 | a shown percentage is `Math.round` of the share times 100, between 1 and 100; `'<1'` exactly when the total is 0 (`NaN`) or the share is below one half percent |
| DetectedModes.ColorOf | www/js/diary/diaryHelper.ts:188 | `getBaseModeByKey(mode)?.color \|\| 'black'` is never empty and is the table colour whenever that is non-empty |
| DetectedModes.ModeEntries | www/js/diary/diaryHelper.ts:183-191 | one entry per sorted mode, in order, each with the percentage of its distance and the icon and colour of its table entry |
| DetectedModes.DetectedModesOf | www/js/diary/diaryHelper.ts:167-168 | a trip with absent or no sections has no detected modes |
| DetectedModes.GetDetectedModes | www/js/diary/diaryHelper.ts:167-194 | the loop, the sort and the map return the specified detected modes |
| DetectedModes.SortedModesMeaning | www/js/diary/diaryHelper.ts:173-182 | the sorted modes are the filtered modes, each once, by decreasing distance |
| DetectedModes.DetectedModesListSortedModes | www/js/diary/diaryHelper.ts:179-191 | the detected modes are the sorted modes in order, each with the percentage of its own sections' distance |
| DetectedModes.DetectedModesAreTheFilteredModes | www/js/diary/diaryHelper.ts:167-194 | the detected modes are exactly the sections' filtered modes, each listed once |
| DetectedModes.DetectedModesByDistanceWithShares | www/js/diary/diaryHelper.ts:180-191 | the detected modes come by decreasing distance, each with its rounded share of the total |
| DetectedModes.DetectedModesTiesKeepFirstAppearance | www/js/diary/diaryHelper.ts:173-182 | modes of equal distance are listed in the order they first appear among the sections |

## Left out

- I/O, logging (`logDebug`) and the date library: `DateTime.fromISO(...).toISO()` and `.toSeconds()` are function parameters (`isoFormat`, `toSeconds`). Dates are day numbers, so `isoDateWithOffset` and `isoDatesDifference` are day arithmetic; `timelineHelper` is not part of this model.
- Localised unit labels (`i18next.t(...)`) are parameters.
- Floating point: numbers are exact reals, so rounding error, `Infinity` and `NaN` are modelled only where stated above.
- Case conversion covers ASCII letters only.
- MetricsSeries.Ensure, MetricsSeries.StepField: plain-object keys are assumed not to name `Object.prototype` members. In the code, a label such as `constructor` or `toString` is already `in mode_bins`, so no bin is created and the following `push` throws. The model creates an ordinary bin instead.
- DetectedModes.AddDistance: the same assumption holds for `dists`. For a mode named like an `Object.prototype` member, `dists[m] || 0` reads the inherited function in the code, while the model starts the mode at 0.
- MetricsUnits.NatToString: counts are written as plain decimal digits. JavaScript writes numbers of `1e21` and above in exponent notation, which the model does not reproduce.
- `Object.entries` lists integer-like keys first, in numeric order. The model keeps every key in insertion order, which matches for mode and label names.
- A metric entry's own properties (`ts`, `fmt_time`, `nUsers`, `date`) are held as named fields, not among its keys. The model assumes that no grouping field is a prefix of these names (no `''`, `d`, `n` or `ts`, say). Under that assumption the code's loops over `Object.keys` and `for ... in` skip them too: they are not upper case and `trimGroupingPrefix` gives `undefined` for them. For a grouping field that is such a prefix, the code would report `date` (or another property) as a label, and the model does not.
- MetricsSeries.MetricToValue, MetricsSeries.ParseDataFromMetrics: require a positive `nUsers` for the aggregate population; the code divides by 0 there. `StepField`, `StepFields`, `StepDay`, `BinsAfter`, `AddField` and `AddFields` carry the same condition through `Processable`.
- MetricsSeries.ParseDataFromMetrics: requires that no grouping field turns `ON_FOOT` into a label. Otherwise, after the code renames the key, it would read `metric['ON_FOOT']` for the grouped point.
- DetectedModes.GetDetectedModes, DetectedModes.DetectedModesOf, DetectedModes.ModeEntries, DetectedModes.PctOf: require non-negative section distances (a share between 0 and 1), which the code does not check.
- The `distance` and `duration` rows of `getUnitUtilsForMetric` (imperial conversion and number formatting come from the configuration) and `calculatePercentChange` are not modelled.
- The remaining diary helper functions (date and time formatting, section properties) are not modelled, and neither are the icon and colour values beyond the table itself.
