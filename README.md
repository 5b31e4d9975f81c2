# Ride demand: per-cluster forecasting and ride-table cleaning, in Dafny

This project models the two computational cores of a ride-hailing demand
analysis repository and proves properties of them.

- **Per-cluster hourly demand** (`cluster_demand.py`). The segmented trips
  of each cluster are counted per hour. Every hour from the first to the
  last occupied hour gets a bin, and empty hours count 0. The hourly series
  is split chronologically with `n_test = int(n * 0.2)`. It is forecast by a
  naive baseline that repeats the last training value, and optionally by
  Prophet. Each forecast is scored with MAE, RMSE and MAPE. The metric rows
  of all clusters are collected into one table.
  - Module `Hourly`: `build_cluster_hourly` and cluster discovery.
  - Module `TimeSplit`: `train_test_split_time`, with Python's `int()` and
    slice semantics.
  - Module `Forecast`: `baseline_naive_last`, and Prophet as an oracle.
  - Module `Metrics`: `eval_metrics`, over exact reals.
  - Module `Artifacts`: file names, with `Decimal` rendering cluster ids.
  - Module `Pipeline`: the loop of `run_cluster_demand`.
    - `RunClusterDemand` is the imperative loop. It is proved equal to the
      specification function `RunSpec`.
    - Lemmas about `RunClusters` and `ProcessCluster` state what a run
      produces.
- **Ride-table cleaning and RFM counts** (`tools/count_rides.py`).
  - Module `SnakeCase`: `to_snake`, with `\w`, `\s` and `lower()` on ASCII.
  - Module `Cleaning`: the null-like markers, the id quote stripping, the
    `is_cancelled` flag and the valid-status filter.
  - Module `RideTable`: the frame as a class. Its header is rewritten in
    place and its columns are rewritten one by one.
  - Module `Rfm`: the per-customer recency / frequency / monetary
    aggregation and the single-transaction count.
  - Module `CountRides`: the script end to end. It is a method proved equal
    to the specification function `CountRidesSpec`.

Inputs and representations:
- Timestamps are integer seconds. A datetime that failed to parse (NaT) is
  `None`.
- Prophet is a parameter `prophet: (train, test) -> Option<seq<real>>`.
  `None` stands for any exception the branch raises. `HAS_PROPHET` is the
  parameter `hasProphet`.
- `pd.to_datetime` and `pd.to_numeric` with `errors="coerce"` are parameters
  `parseTime` and `parseNum`.
- The files a run writes are returned as a list of names.
- The CSV reader's output is given as a header and column-major cells.

Notes on the code's behaviour:
- **Worked example.** On the series 10, 12, 11, 13, 14, 15, 16, 9, 10, 11,
  the split puts 8 rows in train, whose last value is 9. The baseline is
  therefore [9, 9], scoring MAE 1.5 and MSE 2.5 (`Pipeline.WorkedExample`).
- **Frequency.** Frequency is `nunique` over booking ids, and `nunique`
  skips missing values. A customer whose valid rides all lack a booking id
  therefore has frequency 0 (`Rfm.FrequencyBounds` states exactly when it
  is at least 1).
- **Short series.** A cluster whose hourly table has fewer than five rows
  gets `n_test == 0`. Its train part is then empty, and the baseline's
  `iloc[-1]` raises outside any `try`. That ends the whole run
  (`Pipeline.AbortIffShortSeries`, `Pipeline.RunAbortsIff`).

## Model

| member | source | states |
|---|---|---|
| Hourly.BuildClusterHourly | cluster_demand.py:50-53 | no table (None) exactly when no trip carries the cluster label |
| Hourly.HourlyTableShape | cluster_demand.py:55-65 | every row is labelled with the cluster; ds values are hour-aligned and exactly one hour apart; each y counts the cluster's trips in its hour; the first and last rows are occupied; every occupied hour has a row; the y values add up to the cluster's trips with a parsed datetime |
| Hourly.MinHour | cluster_demand.py:55-58 | the earliest occupied hour of the cluster: occupied, no later than any occupied hour, absent exactly when no trip of the cluster has a datetime |
| Hourly.MaxHour | cluster_demand.py:55-58 | the latest occupied hour, symmetric to MinHour |
| Hourly.BinsShape | cluster_demand.py:55-64 | bins between two occupied hours are labelled, aligned, consecutive, count their hour, and start and end occupied |
| Hourly.BinsCoverOccupiedHours | cluster_demand.py:57-58 | every occupied hour between the bounds has its bin |
| Hourly.BinsTotal | cluster_demand.py:57-58 | the bins add up to the number of timed trips of the cluster (NaT trips fall in no bin) |
| Hourly.ZeroSumMeansNoTimedTrips | cluster_demand.py:143-147 | the zero-sum test on a built table holds exactly when the cluster has no trip with a datetime, and exactly when the table is empty |
| Hourly.TimedCountPositive | cluster_demand.py:145 | no timed trip of the cluster exactly when the timed count is 0 |
| Hourly.Insert | cluster_demand.py:133 | inserting into a strictly increasing list keeps it strictly increasing and adds exactly the new element |
| Hourly.Clusters | cluster_demand.py:133 | the distinct trip_segment values, strictly increasing, each present exactly when some trip carries it |
| TimeSplit.Trunc | cluster_demand.py:70 | Python int(): truncation toward zero, for both signs |
| TimeSplit.SliceBound | cluster_demand.py:71-72 | Python's normalisation of a slice bound: negative bounds count from the end, out-of-range bounds clamp |
| TimeSplit.Split | cluster_demand.py:68-73 | train ++ test is the input; for 1 <= n_test <= n the test part is the last n_test rows; for n_test == 0 train is empty and test is everything |
| TimeSplit.DefaultTestLength | cluster_demand.py:70 | at ratio 0.2, n_test is floor(n / 5) |
| TimeSplit.DefaultSplit | cluster_demand.py:155 | with ratio 0.2: under five rows train is empty and test is the whole series; otherwise test has floor(n/5) rows and train is non-empty; test is empty only for an empty series |
| Forecast.BaselineNaiveLast | cluster_demand.py:76-78 | fails (IndexError) exactly on an empty train; otherwise one prediction per test row, each equal to the last training y |
| Forecast.BaselineOnDefaultSplit | cluster_demand.py:155-160 | after the 0.2 split the baseline fails exactly for series of fewer than five rows; otherwise it predicts floor(n/5) copies of the y just before the test window |
| Metrics.Abs | cluster_demand.py:98 | non-negative, zero only at zero, same square |
| Metrics.Divisor | cluster_demand.py:101 | max(y, 1e-6) is positive, at least y and 1e-6, and equal to one of them: MAPE never divides by zero |
| Metrics.Ape | cluster_demand.py:101 | a MAPE term is non-negative and zero exactly when the prediction is exact |
| Metrics.EvalMetrics | cluster_demand.py:97-102 | ValueError exactly on unequal lengths or empty input; otherwise MAE, MSE, MAPE are non-negative, MSE >= MAE² (RMSE >= MAE), and MAE is 0 exactly when the predictions equal the actuals |
| Metrics.MeanFacts | cluster_demand.py:98-100 | the means of absolute and squared errors are non-negative, mean square >= square of mean, and the mean absolute error is 0 exactly when every error is 0 |
| Metrics.SquareSumBound | cluster_demand.py:98-100 | n · Σe² >= (Σ\|e\|)² (Cauchy–Schwarz), proved by induction |
| Metrics.MeanSquareBound | cluster_demand.py:99-100 | from n·Q >= S² to Q/n >= (S/n)²: MSE >= MAE² |
| Metrics.SumsNonNegative | cluster_demand.py:98-99 | the error sums are non-negative, and the absolute sum is 0 exactly when every error is 0 |
| Metrics.ExactIffNoError | cluster_demand.py:98 | the errors are all zero exactly when the predictions equal the actuals |
| Metrics.EqualMagnitudeRmseIsMae | cluster_demand.py:98-100 | when every error has the same magnitude, MSE = MAE² (RMSE = MAE) |
| Metrics.ExactForecastScoresZero | cluster_demand.py:97-102 | an exact forecast scores 0 on all three metrics, including on all-zero actuals |
| Metrics.WorkedExampleMetrics | cluster_demand.py:97-102 | actuals [10, 11] against [9, 9]: MAE 1.5, MSE 2.5, MAPE 155/11 |
| Decimal.IntToStringRoundTrip | cluster_demand.py:150 | parsing the decimal rendering of a cluster id gives the id back |
| Decimal.IntToStringInjective | cluster_demand.py:150 | distinct cluster ids render differently |
| Artifacts.Suffix | cluster_demand.py:118 | every artifact suffix is non-empty and starts with an underscore |
| Artifacts.SuffixInjective | cluster_demand.py:118 | distinct artifact kinds have distinct suffixes |
| Artifacts.ArtifactNameInjective | cluster_demand.py:150 | two (cluster, kind) pairs give the same file name only if they are equal |
| Artifacts.ArtifactName | cluster_demand.py:118-219 | every per-cluster file name starts with "cluster_" and is never the name of the metrics table |
| Pipeline.ProphetBranch | cluster_demand.py:183-211 | scores exist exactly when the oracle returns predictions of the test length on a non-empty test |
| Pipeline.ProcessCluster | cluster_demand.py:143-215 | a cluster without trips is skipped; a fault names the cluster; every row it adds carries its label |
| Pipeline.ProcessSplit | cluster_demand.py:155-215 | the baseline fails exactly on an empty train part, naming the cluster; otherwise the baseline row comes first, followed by at most one more row, all labelled with the cluster |
| Pipeline.RunSpec | cluster_demand.py:128-221 | the run fails exactly when one of the trip clusters aborts; a completed run writes the metrics table last |
| Pipeline.RunCluster | cluster_demand.py:143-160 | the loop body for one cluster equals ProcessCluster: skip, abort or processed |
| Pipeline.RunSplit | cluster_demand.py:158-215 | the baseline (its error uncaught) and the Prophet branch (its failure caught) equal ProcessSplit |
| Pipeline.RunClusterDemand | cluster_demand.py:128-221 | the loop over the sorted clusters with metrics_all appended in place equals RunSpec: the run over all clusters, then the metrics file |
| Pipeline.RunStopsAtFault | cluster_demand.py:160 | once a prefix of the clusters aborts, the whole run aborts with that error |
| Pipeline.SkippedIffNoDemand | cluster_demand.py:143-147 | a cluster is skipped exactly when it has no trips or none with a datetime |
| Pipeline.AbortIffShortSeries | cluster_demand.py:155-160 | a cluster aborts the run exactly when it has demand but fewer than five hourly rows, and the error names it |
| Pipeline.ProcessedShape | cluster_demand.py:172-209 | a processed cluster adds its baseline row first, then a Prophet row exactly when the library is present and Prophet predicted one value per test hour; the files follow suit |
| Pipeline.BaselineOnlyWithoutProphet | cluster_demand.py:181-215 | without the library, or with a Prophet branch that always raises, only the baseline row and files |
| Pipeline.RowsFor | cluster_demand.py:172-209 | the rows of one cluster, a subsequence labelled with it |
| Pipeline.RowsForConcat | cluster_demand.py:172-209 | selecting one cluster's rows distributes over concatenation |
| Pipeline.OutcomeFacts | cluster_demand.py:172-209 | a processed cluster's rows carry its label, are baseline-only without the library, and its files are its baseline files, possibly followed by its Prophet files |
| Pipeline.RunRowsOrdered | cluster_demand.py:133-138 | in a completed run every row's cluster was visited, and the rows are grouped by ascending cluster |
| Pipeline.RunRowsForCluster | cluster_demand.py:138-209 | the rows of a visited cluster in the final table are exactly what that cluster contributed: none if skipped, its baseline row and possibly its Prophet row otherwise |
| Pipeline.RunAbortsIff | cluster_demand.py:138-160 | a run aborts exactly when one of its clusters aborts; the error names a cluster that aborts and all of whose predecessors completed |
| Pipeline.NoProphetRowsWithoutLibrary | cluster_demand.py:181-215 | without the library every row of the table is a baseline row |
| Pipeline.OwnFiles | cluster_demand.py:150-199 | a file named for one cluster is among another cluster's files only if the clusters are the same |
| Pipeline.FilesOnlyForProcessed | cluster_demand.py:143-151 | a file named for a cluster is written only if that cluster was visited and processed, and every processed cluster wrote its hourly table |
| Pipeline.WorkedExample | cluster_demand.py:68-78 | the ten-hour series splits 8/2, the baseline predicts [9, 9], and the cluster's single row scores MAE 1.5 and MSE 2.5 |
| SnakeCase.Strip | tools/count_rides.py:9 | str.strip(): an infix of the input with only whitespace cut off, not starting or ending with whitespace, the identity when no edge is whitespace |
| SnakeCase.RemovePunct | tools/count_rides.py:10 | every character left is a word character or whitespace; the identity on strings made only of those; no capitals in gives only snake characters or whitespace out |
| SnakeCase.RemovePunctConcat | tools/count_rides.py:10 | the substitution works character by character: it distributes over concatenation |
| SnakeCase.RemovePunctChar | tools/count_rides.py:10 | one character is kept exactly when it is a word character or whitespace, and dropped otherwise |
| SnakeCase.CollapseSpaces | tools/count_rides.py:11 | the result holds no whitespace, and is in snake form when the input was snake-or-space |
| SnakeCase.CollapseRun | tools/count_rides.py:11 | a maximal whitespace run of any length becomes exactly one underscore |
| SnakeCase.NoSpaceCollapseIdentity | tools/count_rides.py:11 | a string without whitespace is left unchanged |
| SnakeCase.ToSnake | tools/count_rides.py:8-12 | every character of the result is a lower-case letter, digit or underscore; no whitespace; no longer than the input |
| SnakeCase.SnakeFixedPoint | tools/count_rides.py:8-12 | a name already in snake form is unchanged |
| SnakeCase.Idempotent | tools/count_rides.py:8-12 | to_snake(to_snake(s)) == to_snake(s) |
| SnakeCase.BookingIdHeader | tools/count_rides.py:18 | "Booking ID" becomes "booking_id" |
| Cleaning.CleanCell | tools/count_rides.py:19-22 | a missing cell stays missing; a cell becomes missing exactly when its stripped value is one of the markers (case-sensitively); otherwise it keeps its stripped value |
| Cleaning.CleanCellIdempotent | tools/count_rides.py:20-22 | cleaning twice is cleaning once |
| Cleaning.CleanCellKeeps | tools/count_rides.py:22 | a value that is not a marker once stripped is kept, stripped |
| Cleaning.StripQuotes | tools/count_rides.py:26 | a leading quote is removed; independently, a closing quote is removed, or a quote just before a final newline is removed and the newline kept; a value with neither is unchanged; at most two characters go |
| Cleaning.StripQuotesRoundTrip | tools/count_rides.py:26 | stripping the quotes of "v" gives v |
| Cleaning.StripQuotesInfix | tools/count_rides.py:26 | without a final newline, the result is the input with the leading quote removed exactly when there is one, and the last character removed exactly when it is a quote not already removed as the leading one |
| Cleaning.StripTrailingQuote | tools/count_rides.py:26 | a closing quote is removed even when the value has no opening quote |
| Cleaning.HasInfix | tools/count_rides.py:31 | the substring test `pat in s` holds exactly when pat occurs in s |
| Cleaning.IsCancelled | tools/count_rides.py:31 | the flag is 0 or 1, and 1 exactly when the lower-cased status text contains "cancel" or "no driver" |
| Cleaning.MissingStatusNotCancelled | tools/count_rides.py:31 | a missing status renders as "nan" and is not flagged |
| Cleaning.ValidRideCancelled | tools/count_rides.py:31-34 | among valid rides, exactly "No Driver Found" is flagged as cancelled |
| RideTable.FirstDuplicateFrom | tools/count_rides.py:20-21 | the first column from k on whose name is shared with another column, or the width when none is |
| RideTable.DistinctIffNoDuplicate | tools/count_rides.py:20-21 | the names are pairwise distinct exactly when no column is duplicated |
| RideTable.IndexOf | tools/count_rides.py:25-26 | the first column with the name, absent exactly when no column has it |
| RideTable.RideFrame.NormalizeHeader | tools/count_rides.py:18 | every column name is replaced by its to_snake form; the cells are unchanged |
| RideTable.RideFrame.ReplaceNullLike | tools/count_rides.py:20-22 | reports success exactly when the names are distinct; every column before the first duplicated one is cleaned and the rest untouched |
| RideTable.RideFrame.StripColumnQuotes | tools/count_rides.py:25-26 | the column called name, if any, has its quotes stripped; nothing else changes |
| RideTable.RideFrame.StripIdQuotes | tools/count_rides.py:24-26 | exactly the booking_id and customer_id columns have their quotes stripped |
| Rfm.FirstMissing | tools/count_rides.py:28-36 | none exactly when every column the script reads is present; otherwise a missing one, and every column read before it is present, so it is the first the script would miss |
| Rfm.Rides | tools/count_rides.py:28-31 | KeyError exactly when a column the script reads is missing, naming the first missing one in the order the script reads them; otherwise one ride per row, ride i built from row i of the selected columns, each flag 0 or 1 |
| Rfm.Select | tools/count_rides.py:28-31 | df[name] for each name: the column of the first position that carries that name |
| Rfm.RideCells | tools/count_rides.py:28-31 | each field of ride i comes from row i of the column of that name: datetime parsed from date and time joined by a space, booking value and distance parsed with 0 for NaN, status, flag from the status, customer and booking ids |
| Rfm.NumericOrZero | tools/count_rides.py:29-30 | a missing cell or one the parser rejects becomes 0, otherwise the parsed number |
| Rfm.MaxTime | tools/count_rides.py:33-37 | Series.max(): the latest timestamp, skipping NaT, NaT exactly when all are |
| Rfm.ObservationDate | tools/count_rides.py:33 | NaT exactly when no ride has a timestamp; otherwise at least one day after every ride and exactly one day after some ride |
| Rfm.ValidRides | tools/count_rides.py:34 | the rows whose status is one of the three valid statuses, and every such row |
| Rfm.ValidRidesCounts | tools/count_rides.py:34 | every ride with a valid status is kept as many times as it occurs, every other ride is dropped |
| Cleaning.IsValidRide | tools/count_rides.py:34 | a missing status is never valid, and the test is case-sensitive: a status equal to its own lower-case spelling is never valid |
| Rfm.RidesOf | tools/count_rides.py:36 | the rows of one customer, and every such row |
| Rfm.RidesOfCounts | tools/count_rides.py:36 | every ride of the customer is kept as many times as it occurs, every other ride is dropped |
| Rfm.Recency | tools/count_rides.py:37 | NaN exactly when the observation date is NaT or no ride has a timestamp; otherwise the whole days between the latest ride and the observation date, rounded down |
| Rfm.Aggregate | tools/count_rides.py:36-40 | one entry per customer id occurring on a valid ride |
| Rfm.CustomersAreValidRiders | tools/count_rides.py:34-36 | a customer is in the table exactly when some valid ride carries their id |
| Rfm.RecencyAtLeastOneDay | tools/count_rides.py:33-37 | recency, when defined, is at least one day; it is defined exactly when one of the customer's valid rides has a datetime |
| Rfm.FrequencyBounds | tools/count_rides.py:38 | frequency is at least 1 exactly when one of the customer's valid rides has a booking id, and at most the number of their valid rides |
| Rfm.BookingIdsBound | tools/count_rides.py:38 | no more distinct booking ids than rides |
| Rfm.MonetaryNonNegative | tools/count_rides.py:29-39 | with no negative booking value, monetary is non-negative |
| Rfm.TotalCustomers | tools/count_rides.py:46 | 0 exactly when the customer table is empty |
| Rfm.SingleTransactionCount | tools/count_rides.py:47 | at most total_customers, and equal to it exactly when every customer has frequency 1 |
| CountRides.CountRidesSpec | tools/count_rides.py:17-47 | the script fails on a duplicated column name exactly when the snake header has one; KeyError exactly when a read column is missing, naming a column absent from the header with every column read before it present; otherwise it reports single <= total |
| CountRides.Run | tools/count_rides.py:17-47 | the script run on a RideFrame, statement by statement, equals CountRidesSpec |

## Left out

- Reading and writing files: `pd.read_csv`, `to_csv`, `os.makedirs` and
  the directory paths. A run returns the list of file names it writes.
- Plotting (matplotlib, seaborn) beyond the names of the plot files.
- `print` output and `warnings`.
- The single-transaction percentage, which is only printed.
- Prophet itself: fitting, seasonality settings, uncertainty bounds, and
  the contents of the 7-day future projection. Prophet is an oracle; only
  the file names of its artifacts are modelled.
- Pipeline.ProcessSplit: a Prophet branch that raises after writing some of
  its files (the test CSV or the plot) leaves those files behind. The model
  records the Prophet files only when the branch completes.
- Pipeline.RunSpec: a run that aborts has already written the files of the
  clusters before it, and the aborting cluster's hourly CSV. The error value
  carries only the cluster, not the files written.
- Pipeline.RunClusterDemand: the print of the metrics table is left out.
  The table is modelled as the returned rows.
- The square root in RMSE. The model keeps MSE (= RMSE²) and states its
  properties on MSE.
- IEEE floating point. Metrics are exact reals, so `1e-6` is exact.
- `pd.to_datetime` and `pd.to_numeric` with `errors="coerce"` are passed-in
  parser functions.
- Hourly.Trip: time zones and sub-second precision are left out.
  Timestamps are integer seconds and the hour bucket is floor division.
- Unicode semantics of `\w`, `\s` and `str.lower()`. Only ASCII letters,
  digits and `_` are word characters. Only the ASCII whitespace that Python
  recognises counts as whitespace. Any other character is removed by the
  punctuation step.
- The dtype check on line 21 is modelled only for a duplicated column
  name. Every column read with `dtype=str` has object dtype, and a
  duplicated name makes `df[c]` a frame, whose `.dtype` raises.
- Rfm.Rides: the ride_distance column is computed but never used afterwards.
  Only where it is read from is stated.
- Rfm.Aggregate: the order of the rows of customer_df is not modelled. The
  table is a map keyed by customer id.
- tools/code_coba_coba.py and the Streamlit pages (app.py, utils.py and the
  page modules) are not part of this model. They are presentation code or
  a thin library wrapper around the same per-customer count.
