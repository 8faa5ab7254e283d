# TeraPCA benchmark analyzer, modelled in Dafny

This project models the core of the TeraPCA benchmark analyzer
(`benchmarks/benchmark_analyzer.py`). The analyzer reads a benchmark log
that has a "System Information" section of key/value lines, a "Benchmark
Results" section of comma-separated run rows and a "Summary Statistics"
section. Its output is:

- the system information, the summary, and a table of
  `{run, time, status}` records (`parse_benchmark_file`);
- the statistics of the successful runs of each log
  (`analyze_single_result`);
- a comparison of the first two logs (`compare_results`): speedup
  direction, throughput ratio, sample size for the t-test, and a
  significance verdict for the p-value.

Modules, one file each:

- `wrappers.dfy`, module `Wrappers`: `Option` and `Result`.
- `text.dfy`, module `Text`: the Python string operations the reader uses.
  These are `strip()` (with Python's whitespace set), `startswith`,
  `split(c, 1)`, and `split(c)` with its inverse `join`.
- `log_parser.dfy`, module `LogParser`: `parse_benchmark_file`.
  - The line loop is the method `ScanLines`. Its three section flags are
    loop variables, and it is proved against `ScanAll`, a fold of the
    one-line function `Step`.
  - The record loop is `BuildRecords`, proved against `Records`.
  - `ParseBenchmarkFile` chains the two.
  - Python's `int()` and `float()` are parameters `toInt` and `toFloat`, of
    type `string -> Option<...>`. `None` stands for their `ValueError`.
- `analysis.dfy`, module `Analysis`: `analyze_single_result`, a pure
  function with four outcomes:
  - no table;
  - the `KeyError` on an empty table;
  - no successful timed run;
  - the statistics and the time series.
  Division follows numpy, so a zero divisor yields a `NonFinite` quotient
  instead of raising.
- `comparison.dfy`, module `Comparison`: `compare_results`.
  - The loop is the method `AnalyzeEach`.
  - The head-to-head decisions are functions.
  - The `TypeError` from unpacking `None` is an explicit `CompareError`.

Behaviours of the code that the model keeps:

- Section headers are matched with `startswith`, not by equality.
- The Summary header does not close the system section, so the flags are
  not a three-state machine: key/value lines after it can still go to the
  system dictionary.
- A log with rows but no row of three or more fields gives an empty table.
  Analysing it raises `KeyError` (no `status` column).
- A log with no successful timed run makes `analyze_single_result` return
  `None`, and unpacking that `None` makes `compare_results` raise
  `TypeError`.
- Both series are cut to `min(10000, len1, len2)`, one common size, not
  each to 10000 on its own.
- The t-test's p-value is NaN for series it cannot compare, and NaN is
  reported as "not significant".

## Model

| member | source | states |
|---|---|---|
| Text.Strip | benchmarks/benchmark_analyzer.py:33 | `strip()` never lengthens a line, and the result neither starts nor ends with whitespace |
| Text.StripSlice | benchmarks/benchmark_analyzer.py:33 | `strip()` returns a contiguous piece of the line, and everything it cuts off on either side is whitespace |
| Text.StripIdempotent | benchmarks/benchmark_analyzer.py:33 | stripping an already stripped line changes nothing |
| Text.StripKeepsAbsent | benchmarks/benchmark_analyzer.py:48-49 | stripping cannot introduce a character, so a key cut before the first colon stays colon-free |
| Text.TrimStartSuffix | benchmarks/benchmark_analyzer.py:33 | the left trim removes exactly a prefix of whitespace |
| Text.TrimEndPrefix | benchmarks/benchmark_analyzer.py:33 | the right trim removes exactly a suffix of whitespace |
| Text.IndexOf | benchmarks/benchmark_analyzer.py:48 | the position found holds the separator, and no earlier position does |
| Text.SplitFirst | benchmarks/benchmark_analyzer.py:48 | `split(':', 1)` gives two parts that rebuild the line around one colon, and the first part has no colon |
| Text.Split | benchmarks/benchmark_analyzer.py:62 | `split(',')` gives at least one part, no part contains a comma, and a line without a comma is its own single part |
| Text.JoinSplit | benchmarks/benchmark_analyzer.py:62 | joining the comma-split parts with commas gives back the line |
| Text.SplitJoin | benchmarks/benchmark_analyzer.py:62 | splitting a comma-join of comma-free fields gives back the fields |
| LogParser.KeyValue | benchmarks/benchmark_analyzer.py:47-49 | a key/value line yields a key that contains no colon |
| LogParser.KeyValueSplit | benchmarks/benchmark_analyzer.py:48-49 | key and value are the stripped text before and after the first colon, and neither changes when stripped again |
| LogParser.ScanLines | benchmarks/benchmark_analyzer.py:26-56 | the flag-driven line loop leaves the system dictionary, the summary dictionary and the collected rows equal to `ScanAll`, the fold over all lines of `Step`, the if/elif chain of one iteration |
| LogParser.HeadersExclusive | benchmarks/benchmark_analyzer.py:35-45 | no line starts with two different section headers, so exactly one header branch is taken |
| LogParser.HeaderSwitchesSections | benchmarks/benchmark_analyzer.py:35-45 | a header line stores nothing. System sets only its flag. Results clears system and sets data. Summary clears data, sets summary and keeps system |
| LogParser.SummaryWithoutResults | benchmarks/benchmark_analyzer.py:42-49 | after a Summary header with the system section still open, key/value lines go to the system dictionary, not to the summary |
| LogParser.LaterKeyWins | benchmarks/benchmark_analyzer.py:47-49 | of two consecutive system lines with the same key, the later value is stored and the key set grows by that key only |
| LogParser.StepRoutes | benchmarks/benchmark_analyzer.py:47-56 | one line stores its key/value pair in the system dictionary exactly when the system flag is on, and in the summary exactly when the system flag is off, the data branch does not take it and the summary flag is on. It needs a colon and must not be a header. Otherwise that dictionary is unchanged |
| LogParser.StoredKeys | benchmarks/benchmark_analyzer.py:32-56 | after the whole scan, a key is in the system (or summary) dictionary exactly when some line was stored there under that key |
| LogParser.LastKeyWins | benchmarks/benchmark_analyzer.py:47-56 | after the whole scan, a repeated key holds the value of the last line stored under it in that dictionary |
| LogParser.NothingBeforeHeader | benchmarks/benchmark_analyzer.py:26-45 | as long as no header line has been seen, nothing is stored and every flag stays off |
| LogParser.StepRows | benchmarks/benchmark_analyzer.py:47-53 | one line either leaves the rows alone or appends itself stripped. It appends only in the data section, and only if it is not a header, not a comment and not the `Run#` row, and has a comma. Conversely, such a line is appended unless the open system section takes it as a key/value line |
| LogParser.CollectedRows | benchmarks/benchmark_analyzer.py:32-53 | every collected row is a stripped input line that has a comma and is not a comment, a `Run#` row or a header |
| LogParser.RowsNeedResultsHeader | benchmarks/benchmark_analyzer.py:38-53 | rows are collected only after some line starting with the Results header |
| LogParser.ScanOpensData | benchmarks/benchmark_analyzer.py:38-40 | the data flag is set only by a Results header line |
| LogParser.RecordOf | benchmarks/benchmark_analyzer.py:63-67 | a row converts exactly when field 1 is an int and field 2 is `N/A` or a float. The run number is `int(field 1)`, the time is absent exactly for `N/A`, the status is field 3 verbatim, and each failure names its field |
| LogParser.RecordLines | benchmarks/benchmark_analyzer.py:61-63 | the rows that become records are no more than the collected rows, each with at least three fields |
| LogParser.RecordLinesSelect | benchmarks/benchmark_analyzer.py:61-63 | exactly the collected rows with three or more fields are kept, each as often as it was collected |
| LogParser.RecordLinesAppend | benchmarks/benchmark_analyzer.py:60-63 | the selection keeps row order: selecting from two stretches of rows is selecting from each in turn |
| LogParser.BuildRecords | benchmarks/benchmark_analyzer.py:59-69 | the record loop returns `Records`, the value form of the loop: the records of the rows with three or more fields, or the first conversion error |
| LogParser.ParseBenchmarkFile | benchmarks/benchmark_analyzer.py:14-71 | the reader returns `Parse`, the value form of the whole function: the scanned dictionaries. `data` is absent exactly when no row was collected. The whole call fails exactly when some row with three or more fields does not convert |
| LogParser.RecordsErrorPersists | benchmarks/benchmark_analyzer.py:61-65 | after a conversion error, later rows do not change the outcome, so no partial table is returned |
| LogParser.RecordsOkIff | benchmarks/benchmark_analyzer.py:59-69 | record building succeeds if and only if every row with three or more fields converts |
| LogParser.RecordsInOrder | benchmarks/benchmark_analyzer.py:60-67 | on success there is one record per row with three or more fields, in row order, and shorter rows are dropped |
| LogParser.RecordsFirstError | benchmarks/benchmark_analyzer.py:61-65 | on failure, the error is that of the first row with three or more fields that does not convert, and every earlier row converts |
| Analysis.Divide | benchmarks/benchmark_analyzer.py:102 | a division on exact reals, as numpy does it without raising: finite exactly when the divisor is nonzero, and then the quotient times the divisor is the dividend |
| Analysis.Successful | benchmarks/benchmark_analyzer.py:80 | the SUCCESS filter never lengthens the table |
| Analysis.SuccessfulMembers | benchmarks/benchmark_analyzer.py:80 | the filter keeps exactly the runs whose status is `SUCCESS`, each as many times as it occurs in the table |
| Analysis.Times | benchmarks/benchmark_analyzer.py:81 | `dropna` never lengthens the series |
| Analysis.TimesMembers | benchmarks/benchmark_analyzer.py:81 | `dropna` keeps exactly the times that are present, each as many times as it occurs in the column |
| Analysis.AbsentTimeDropped | benchmarks/benchmark_analyzer.py:81 | with one absent time, the series is shorter than the table it came from |
| Analysis.TimedSuccess | benchmarks/benchmark_analyzer.py:80-83 | the time series is nonempty exactly when some SUCCESS run has a time |
| Analysis.MinIsLeast | benchmarks/benchmark_analyzer.py:97 | the minimum is one of the times and no time is smaller |
| Analysis.MaxIsGreatest | benchmarks/benchmark_analyzer.py:98 | the maximum is one of the times and no time is larger |
| Analysis.MeanBetweenMinAndMax | benchmarks/benchmark_analyzer.py:94-98 | the mean lies between the minimum and the maximum |
| Analysis.SumPositive | benchmarks/benchmark_analyzer.py:102 | a sum of positive times is positive, so the throughput divisor is nonzero |
| Analysis.AllSuccessful | benchmarks/benchmark_analyzer.py:92-93 | the filter keeps every run exactly when every status is `SUCCESS` |
| Analysis.Lookup | benchmarks/benchmark_analyzer.py:89-90 | `get(key, 'Unknown')`: the stored value when the key is present, `Unknown` otherwise |
| Analysis.AnalyzeSingleResult | benchmarks/benchmark_analyzer.py:73-105 | `None` for no table and `KeyError` for an empty one. Statistics exactly when some SUCCESS run has a time, labelled with the given label, with a nonempty series of the successful present times. Architecture and CPU are looked up with the `Unknown` fallback. Total runs is the table length, the success rate is successful over total times 100, the mean is `Sum` over the count, min and max are `Min` and `Max` of the series, and the throughput is the successful-run count over `Sum` |
| Analysis.CountsBounded | benchmarks/benchmark_analyzer.py:91-93 | 1 <= times <= successful runs <= total runs = table length, 0 < success rate <= 100, and the rate is 100 exactly when every run succeeded |
| Analysis.TimeSummary | benchmarks/benchmark_analyzer.py:94-98 | min <= mean <= max, min and max are times of successful runs, and every time lies between them |
| Analysis.ThroughputIsRate | benchmarks/benchmark_analyzer.py:102 | throughput times total time is the run count, and it is finite whenever all times are positive |
| Analysis.UntimedRunsCounted | benchmarks/benchmark_analyzer.py:80-81 | a SUCCESS run with an `N/A` time is counted as a successful run but is missing from the series |
| Comparison.SpeedupOf | benchmarks/benchmark_analyzer.py:142-146 | for positive means the factor is at least 1 and names the side with the smaller mean. The named side's mean times the factor is the other mean |
| Comparison.SpeedupSymmetric | benchmarks/benchmark_analyzer.py:142-146 | swapping the two datasets keeps the factor and flips the side when the means differ. A tie reports the second label with factor 1 |
| Comparison.ThroughputRatio | benchmarks/benchmark_analyzer.py:148 | the ratio of two finite throughputs with a nonzero divisor is finite and times the divisor gives the dividend. A finite throughput over zero is non-finite, a finite throughput over a non-finite one is 0, and a non-finite dividend gives a non-finite ratio |
| Comparison.SampleSize | benchmarks/benchmark_analyzer.py:157 | the sample size is at most 10000 and at most either length, and equals one of the three |
| Comparison.SamplingEqualizes | benchmarks/benchmark_analyzer.py:157-161 | after sampling (`SampledLength`: a series longer than the sample size is cut to it), both series have length `min(10000, len1, len2)`, and exactly 10000 when both are at least that long |
| Comparison.Classify | benchmarks/benchmark_analyzer.py:163-170 | highly significant exactly below 0.001, significant exactly in [0.001, 0.05), not significant exactly from 0.05 or for a NaN p-value |
| Comparison.ClassifyMonotone | benchmarks/benchmark_analyzer.py:165-170 | of two numeric p-values, the smaller never receives a weaker verdict |
| Comparison.CollectedStep | benchmarks/benchmark_analyzer.py:114-118 | appending one analysed dataset keeps the statistics in order and, under each label, the series of the last dataset with that label |
| Comparison.AnalyzeEach | benchmarks/benchmark_analyzer.py:109-118 | the loop succeeds exactly when every zipped dataset is analysed. Otherwise it fails at the first that is not, with `KeyError` exactly for an empty table. On success it holds every statistics record in order, every label as a key and no other key, and each label's last series |
| Comparison.HeadToHeadOf | benchmarks/benchmark_analyzer.py:135-170 | the head-to-head names the two labels and cuts both series to one common size: 10000 or one of the two lengths, never more than any of them, and at least 1 when both are nonempty. Its speedup is `SpeedupOf` of the two means (a faster side with factor >= 1 for positive means), its throughput ratio is `ThroughputRatio` of the two throughputs, and its verdict is `Classify` of the p-value ("not significant" exactly for a NaN p-value or p >= 0.05) |
| Comparison.CompareResults | benchmarks/benchmark_analyzer.py:107-173 | the loop's success, first-failure and collection properties hold. There is a head-to-head exactly when at least two pairs were zipped. It compares the first two labels using the series stored under them |
| Comparison.ComparableExactly | benchmarks/benchmark_analyzer.py:114-115 | `compare_results` gets through its loop exactly when every zipped dataset has a table with a SUCCESS run that has a time |
| Comparison.SharedLabelSharesSeries | benchmarks/benchmark_analyzer.py:118 | when the first two labels coincide and no later dataset has that label, both head-to-head series are the second dataset's, because the first series was overwritten |

## Left out

- Reading the file (lines 22-23): `ParseBenchmarkFile` takes the file's lines.
- The actual conversions `int()` and `float()` (lines 64-65) are parameters. That includes the whitespace they accept, and the NaN or infinity `float()` can return.
- LogParser.ParseBenchmarkFile: the pandas DataFrame (line 69) is a sequence of records. A DataFrame built from an empty list has no columns, which is modelled as the `StatusColumnMissing` outcome of `analyze_single_result`.
- Analysis.AnalyzeSingleResult: median, standard deviation and the 90th/95th/99th percentiles (lines 95-96, 99-101) are not modelled, because they are pandas floating-point numerics. Mean, minimum, maximum, sum and the success rate use exact real arithmetic, not IEEE doubles.
- Analysis.Divide, Comparison.SpeedupOf, Comparison.ThroughputRatio: throughput, speedup factor and throughput ratio are exact reals. IEEE rounding, overflow to infinity (a nonzero but tiny divisor) and underflow to zero (a ratio of very different means that rounds to 0.0 and is then reported as an infinite factor) are not modelled.
- Comparison.SpeedupOf: a zero mean makes numpy print an infinite or NaN factor and still name a side. The model returns `NoFiniteRatio` for such a case instead of choosing a side.
- Comparison.ThroughputRatio: a division of two non-finite throughputs is not told apart as infinity or NaN. Every such result is `NonFinite`.
- The t-test `scipy_stats.ttest_ind` (line 163) is a library call: its p-value is the input `pValue` of `CompareResults`, with `None` for NaN. The `ImportError` when scipy is missing (line 152) is not modelled.
- The random `.sample(...)` (lines 159-160) is modelled by the length it leaves, not by which values it keeps.
- Every `print` (lines 76, 84, 112, 120-133, 139-171) is presentation only and left out.
- Dictionary insertion order: `system_info`, `summary` and `all_times` are maps, which do not record the order of their keys.
- `create_visualizations` (lines 175-242): plotting and file output.
- `main` (lines 244-289): argument parsing, file checks and `sys.exit`.
- `plots.py` and the C/C++ headers `methods.h`, `gennorm.h` and `io.h` are not part of this model. They hold plotting and prototypes, with no logic of the analyzer.
