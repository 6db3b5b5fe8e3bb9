# Rice-blast risk pipeline (BlastDT): a verified model

This project models the computational core of the BlastDT rice-blast
pipeline in Dafny and proves properties of it. The pipeline has two stages,
each in three near-copies that disagree in their details:

- **Loading a station's daily series.** `get_daily_weather` reads one CSV
  file per year and concatenates them. It then parses the date column,
  drops repeated dates (the first one is kept) and, in `BlastDT3.py` only,
  rebuilds the daily calendar. It turns the sentinel codes -9.8 and -99.7,
  and anything below -99, into NaN. It fills gaps by linear interpolation:
  only inside gaps in `BlastDT2.py` and `BlastDT3.py`, every gap (with
  forward and backward fill) in `blast_predict_nian.py`. Last, it keeps the
  days of `[start, end]`.
- **Risk classifiers.** `BlastDT2`, `nian_formula` and `BlastDT3` annotate
  the caller's frame in place. `BlastDT2` and `nian_formula` have:
  - per-day threshold conditions, carried as True/False/NaN;
  - a trailing window of `windows_length` rows that is true only when
    every row in it is true (a row is a loaded date, and dates may be
    missing);
  - a flag that ANDs the rules and becomes NaN as soon as any rule is NaN,
    so false AND NaN is NaN.

  `BlastDT3` has no window. Its comparisons turn a NaN reading into False,
  so its flag is the AND of three True/False conditions and is never NaN.
- **Regrouping predictions by date** (`consolidate_daily.py`). The
  per-station prediction tables of each version are checked and their rows
  bucketed by date. Each bucket is sorted by station id and written as one
  file per date.

## Representation

- **Readings.** A NaN reading is `None` in an `Option<real>`. A condition
  value is `Tri = Yes | No | Unknown`.
- **Tables.** A table is column-oriented: a sequence of day numbers plus a
  map from column name to readings. Dates are day numbers, and the
  `%Y-%m-%d` string comparison of the window filter is replaced by the
  day-number comparison: `Text.IsoOrder` proves that string order on ISO
  dates is day-number order, and `Text.IsoWindow` that the string mask
  keeps exactly the days whose number lies in the window. A year file
  that `read_csv` cannot read is a year missing from the `Store` map.
- **Predictors.** Each `nian` class is a datatype with its constructor
  defaults (for example `BlastDT2.Nian(rhThreshold := 77.0, ...)`). Its
  loader is a `method` with the year loop. Its classifier is a `method`
  that mutates a `DataFrame.Frame` object.
- **Consolidation.** Each version folder is a list of optional CSV tables.
  `daily_data` is a sequence of keys in insertion order plus a map from key
  to bucket. `pd.to_datetime` on one cell is a function parameter.

## Where the code and its own comments disagree

- **Calendar rebuild.** The comment at `BlastDT2.py:47` and
  `blast_predict_nian.py:42` says no date may be missing. However, the
  `reindex` result (line 53, line 48) is discarded, so no day is ever
  inserted. The model follows the code: only `BlastDT3.py:56` rebuilds the
  calendar.
- **Rolling windows count rows, not days.** Because no day is inserted in
  `BlastDT2.py` and `blast_predict_nian.py`, `rolling(windows_length)`
  (`BlastDT2.py:105-107`, `blast_predict_nian.py:92-94`) spans the last
  `windows_length` loaded rows. When dates are missing, such a window
  covers more calendar days than its length, and the flag can be true
  although a day inside that span has no reading at all. `BlastDT3.py`
  rebuilds the calendar but uses no window.
- **Unreadable year in `BlastDT2.py`.** A year that cannot be read is meant
  to be skipped. But when the `weather_data` directory does not exist,
  `os.listdir` (line 43) raises inside the `except` block and the whole
  call fails. `BlastDT2.Nian.GetDailyWeather` returns
  `Err(WeatherDataDirMissing)` in exactly that case. `BlastDT3.py:47`
  guards against it.
- **Unreadable first year in `blast_predict_nian.py`.** `df` is bound only
  by the first year's file (line 37). If that file cannot be read, every
  later `concat` raises `NameError`, which is caught and skipped. The date
  `try` then returns the empty frame.

## Model

| member | source | states |
|---|---|---|
| Calendar.DayNumberOrder | BlastDT2.py:70 | One date is before another (year, then month, then day) exactly when its day number is smaller, and two dates are equal exactly when their day numbers are. |
| Text.IsoOrder | BlastDT2.py:70 | On `%Y-%m-%d` strings, string `<=` holds exactly when the first date's day number is not larger, and the strings are equal exactly when the dates are. |
| Text.IsoWindow | BlastDT2.py:70 | The mask `(date >= start) & (date <= end)` on `%Y-%m-%d` strings holds for a day exactly when its day number lies in `[start, end]`, so the string window keeps the same rows as the day-number window. |
| Text.Pad4Order | BlastDT2.py:70 | A zero-padded four-digit year compares as a string exactly as the year compares as a number. |
| ThreeValued.And | BlastDT2.py:111-115 | Unknown exactly when either side is unknown, true exactly when both are true: `(a==1) & (b==1)` followed by `where(notnull)`. |
| ThreeValued.Conj | BlastDT2.py:105-115 | The AND of a sequence is true iff every element is true, unknown iff some element is unknown, false iff none is unknown and some is false. |
| ThreeValued.UnknownAbsorbsNo | BlastDT2.py:112-115 | False AND unknown is unknown (not Kleene logic). |
| Calendar.StartYear | BlastDT2.py:26-28 | The first year read is the start's year, or the year before exactly when the start is in January. |
| Calendar.EndYear | BlastDT2.py:29-31 | The last year read is the end's year, or the year after exactly when the end is in December. |
| YearFiles.Append | BlastDT2.py:39 | `pd.concat([df, temp_df]) if not df.empty else temp_df`: the rows are always those of `df` then of the file; while `df` has no row the result is the file itself, otherwise its columns are the union of both. |
| Frames.Concat | BlastDT2.py:39 | `pd.concat`: the rows of the first table then of the second, over the union of columns, NaN where a table lacks a column. |
| Frames.Parse | BlastDT2.py:48-58 | The date column parses (giving one day number per row, readings unchanged) unless there is no row or some date cell cannot be parsed, which is the "Corrupted date column" path. |
| Frames.FirstOccurrences | BlastDT2.py:52 | `~index.duplicated(keep='first')`: a row is kept exactly when its date does not occur on an earlier row; the kept positions increase. |
| Frames.Dedupe | BlastDT2.py:52 | Dropping repeated dates gives a well-formed table and keeps a non-empty table non-empty; what it keeps is stated by `Frames.DedupeKeepsFirst`. |
| Frames.DedupeKeepsFirst | BlastDT2.py:52 | After dropping repeated dates every date occurs once, the set of dates is unchanged, each kept row carries the readings of the first row with its date, and kept rows stay in first-appearance order. |
| Frames.DedupeRowIsFirst | BlastDT2.py:52 | A row of the de-duplicated table carries, in each column, the reading of the first loaded row of its date. |
| Frames.DedupeSpan | BlastDT3.py:55-56 | Dropping repeated dates keeps the columns, the earliest and the latest day. |
| Frames.Reindex | BlastDT3.py:56 | `reindex(pd.date_range(min, max))` of a non-empty table is well-formed; its rows are stated by `Frames.ReindexCompletesCalendar`, `Frames.ReindexKeepsRow` and `Frames.ReindexFillsGaps`. |
| Frames.ReindexCompletesCalendar | BlastDT3.py:56 | The rebuilt calendar starts at the earliest and ends at the latest loaded day, steps by exactly one day, and contains every loaded day. |
| Frames.ReindexSpan | BlastDT3.py:56 | The rebuilt calendar is exactly the run of days from the earliest to the latest loaded day, over the same columns. |
| Frames.ReindexKeepsRow | BlastDT3.py:55-56 | Every loaded row (dates already distinct) appears in the rebuilt calendar at the position of its day, with its readings unchanged. |
| Frames.ReindexLoadedCell | BlastDT3.py:56 | A day of the rebuilt calendar that was loaded carries, in each column, the reading of the first row of that day. |
| Frames.ReindexFillsGaps | BlastDT3.py:56 | A calendar day that was not loaded has every reading NaN. |
| Frames.WindowRows | BlastDT2.py:70 | The boolean mask `(date >= start) & (date <= end)`: a row position is selected exactly when its day lies in the window, in increasing order. |
| Frames.Truncate | BlastDT2.py:70-71 | The window cut is well-formed; which rows it keeps is stated by `Frames.TruncateKeepsWindow` and `Frames.InWindowMembers`. |
| Frames.TruncateKeepsWindow | BlastDT2.py:70-71 | The window cut keeps exactly the rows whose day lies in `[start, end]`, in their existing order, each with the readings of an input row of that day, over the same columns. |
| Frames.InWindowMembers | BlastDT2.py:70-71 | A day survives the window cut iff it was loaded and lies in `[start, end]`; distinct days stay distinct. |
| Frames.InWindowOfRun | BlastDT3.py:70-71 | Cutting a run of consecutive days to `[lo, hi]` gives the run of the days common to both. |
| Cleaning.Scrub | BlastDT2.py:61-65 | The sentinel replacement is well-formed; which cells become NaN is stated by `Cleaning.ScrubSpec`. |
| Cleaning.ScrubSpec | BlastDT2.py:61-65 | Exactly the readings equal to -9.8 or -99.7 or below -99 become NaN, every other cell is unchanged, dates and columns are kept, no sentinel remains, and scrubbing twice changes nothing. |
| Cleaning.LerpBetween | BlastDT2.py:68 | The interpolation line passes through both neighbours and every interpolated value lies between them. |
| Cleaning.InterpolateInside | BlastDT2.py:68 | Interpolating every column keeps the dates and the set of columns; each column's values are stated by `Cleaning.InterpolateColumnSpec`. |
| Cleaning.InterpolateColumnSpec | BlastDT2.py:68 | `interpolate(limit_area='inside')` keeps known values, fills a NaN row bracketed by known values with the point on the line between the nearest ones (by row position, so between their values), and leaves leading and trailing NaN runs unfilled. |
| Cleaning.InterpolateKeepsFloor | BlastDT2.py:68 | If every known value of a column is at least some bound, so is every value after inside interpolation. |
| Cleaning.CleanInsideCell | BlastDT2.py:62-68 | After scrubbing and inside interpolation, a known non-sentinel cell is unchanged and no known cell lies below -99. |
| Cleaning.InterpolateColumnIdempotent | BlastDT2.py:68 | Inside interpolation applied twice equals applied once. |
| Cleaning.FillGaps | blast_predict_nian.py:63 | `interpolate().ffill().bfill()` on every column keeps the dates and the set of columns; each column's values are stated by `Cleaning.FillColumnSpec`. |
| Cleaning.FillKeepsFloor | blast_predict_nian.py:63 | If every known value of a column is at least some bound, so is every value after filling every gap. |
| Cleaning.CleanFillCell | blast_predict_nian.py:56-63 | After scrubbing and filling every gap, a known non-sentinel cell is unchanged and no known cell lies below -99. |
| Cleaning.FillColumnSpec | blast_predict_nian.py:63 | `interpolate().ffill().bfill()` agrees with inside interpolation where that gives a value, copies the first known value into the leading run and the last into the trailing run, leaves no NaN in a column with a known value, and leaves an all-NaN column unchanged. |
| YearFiles.ReadableYears | BlastDT2.py:27-35 | Every year listed lies in the span and has a readable file; that all of them are listed, once and in order, is `YearFiles.ReadableYearsSpec`. |
| YearFiles.ReadableYearsSpec | BlastDT2.py:27-35 | The years read are exactly the readable ones of `range(start_year, end_year + 1)`, each once and in increasing order. |
| YearFiles.Accumulate | BlastDT2.py:34-46 | The concatenation of the readable years is well-formed; its rows, values and columns are stated by `YearFiles.AccumulateRows`, `YearFiles.AccumulateValues` and `YearFiles.AccumulateColumns`. |
| YearFiles.AccumulateRows | BlastDT2.py:34-46 | The concatenated frame has the rows of every readable year of the span, year after year, and of no other year; an unreadable year is skipped. |
| YearFiles.AccumulateValues | BlastDT2.py:34-46 | Each column of the concatenated frame is, row for row, that column of the readable years' files, NaN for a file lacking it. |
| YearFiles.AccumulateColumns | BlastDT2.py:39 | Every column of a readable year with at least one row is a column of the concatenated frame. |
| YearFiles.NianAccumulate | blast_predict_nian.py:33-41 | A bound `df` is well-formed; when it is bound and what it holds is stated by `YearFiles.NianUnboundWithoutFirstYear` and `YearFiles.NianAccumulateRows`. |
| YearFiles.NianUnboundWithoutFirstYear | blast_predict_nian.py:33-41 | If the first year's file cannot be read, `df` is never bound, whatever the later years hold. |
| YearFiles.NianAccumulateRows | blast_predict_nian.py:33-41 | With the first year readable, `df` is bound and holds the rows and columns of every readable year of the span, in year order. |
| Rules.Test | BlastDT2.py:88-90 | A day's condition is true iff its reading is known and meets the threshold, and unknown iff the reading is NaN and the classifier carries NaN through (otherwise false). |
| Rules.TestColumn | BlastDT2.py:88-90 | A condition column has one value per reading, each the condition of that reading as `Rules.Test` states it. |
| Rules.Rolling | BlastDT2.py:105-107 | A rolling column has one value per row, each the window value `Rules.WindowAll` states for that row. |
| Rules.WindowAll | BlastDT2.py:105-107 | `rolling(W).apply(all)` at row `i` is true iff at least `W` rows exist and all of the last `W` conditions are true, unknown iff fewer than `W` rows exist or one of them is unknown. |
| Rules.AllOf | BlastDT2.py:111-115 | The flag of a row is true iff every rule column is true there and unknown iff some rule column is unknown there. |
| Rules.RollingIsCausal | BlastDT2.py:105-107 | A rolling value depends only on the rows up to its own. |
| Rules.RollingOfOne | BlastDT2.py:105-107 | A window of one day is the condition itself. |
| Rules.UnknownSpreads | BlastDT2.py:105-107 | An unknown condition makes the `W` rolling values from its row on unknown. |
| DataFrame.WithFirstMissing | BlastDT2.py:85 | `df.loc[0, c] = NaN`: row 0 becomes NaN and every other row keeps its value. |
| DataFrame.Frame.ClearFirst | BlastDT2.py:85 | Only column `c` changes, to its row-0-cleared form; dates and derived columns are unchanged. |
| DataFrame.Frame.Put | BlastDT2.py:88 | Assigning a derived column changes only that column. |
| BlastDT2.Normalize | BlastDT2.py:48-71 | The cleaned, windowed frame is well-formed; its rows are stated by `BlastDT2.NormalizeRows` and its readings by `BlastDT2.NormalizeValues`. |
| BlastDT2.NormalizeValues | BlastDT2.py:52-71 | Every reading of the result comes from the first loaded row of its date: a known, non-sentinel reading there is kept unchanged; and no known reading of the result lies below -99. |
| BlastDT2.NormalizeRows | BlastDT2.py:48-71 | After loading, the rows are the window cut of the de-duplicated dates: each loaded date in `[start, end]` exactly once and no other day (no missing day is inserted), over the raw columns; an unparsable or empty date column gives the empty frame. |
| BlastDT2.Nian.GetDailyWeather | BlastDT2.py:24-72 | The call fails iff some year of the span is unreadable and `weather_data` is missing; otherwise it returns the normalisation of the concatenated readable years. |
| BlastDT2.Nian.DayConditions | BlastDT2.py:86-103 | A day's three conditions are all true iff TxMaxAbs >= lower, Tx <= upper and RH >= threshold hold on known readings; one is unknown iff a reading is NaN. |
| BlastDT2.Nian.FlagTrue | BlastDT2.py:105-111 | The `BlastDT2` flag of row `i` is true iff at least `W` rows exist up to it and each of the last `W` rows is favourable. |
| BlastDT2.Nian.FlagUnknown | BlastDT2.py:105-115 | The flag of row `i` is unknown iff fewer than `W` rows exist up to it or one of the last `W` rows has a NaN reading. |
| BlastDT2.Nian.FirstWindowUnknown | BlastDT2.py:85-115 | With row 0's TxMaxAbs cleared, the flag is unknown on rows `0..W-1`. |
| BlastDT2.Nian.BlastDT2 | BlastDT2.py:78-118 | Row 0's TxMaxAbs becomes NaN (the column is created if absent) and no other reading changes. With Tx and RH present, the three condition, three rolling and flag columns are added. A missing Tx or RH raises after exactly the condition columns written so far. |
| BlastPredictNian.FirstFileLost | blast_predict_nian.py:33-53 | If the first year's file cannot be read, the loader returns the empty frame. |
| BlastPredictNian.Normalize | blast_predict_nian.py:43-66 | The cleaned, windowed frame is well-formed, also when `df` was never bound; its rows are stated by `BlastPredictNian.NormalizeRows`, its readings by `BlastPredictNian.NormalizeValues` and its gaps by `BlastPredictNian.NoGapsLeft`. |
| BlastPredictNian.NormalizeRows | blast_predict_nian.py:43-66 | The rows are the distinct loaded dates in `[start, end]`, each once, in first-appearance order (no day inserted); an unparsable date column gives the empty frame. |
| BlastPredictNian.NormalizeValues | blast_predict_nian.py:47-66 | Every reading of the result comes from the first loaded row of its date: a known, non-sentinel reading there is kept unchanged; and no known reading of the result lies below -99. |
| BlastPredictNian.NoGapsLeft | blast_predict_nian.py:56-66 | A column with at least one known value after scrubbing has no NaN left in the result. |
| BlastPredictNian.Nian.GetDailyWeather | blast_predict_nian.py:23-67 | The loader returns the normalisation of the frame bound by the first year and extended by each later readable year. |
| BlastPredictNian.Nian.DayConditions | blast_predict_nian.py:81-90 | A day's two conditions are both true iff TxMaxAbs > T_threshold and RH > RH_threshold hold on known readings; one is unknown iff a reading is NaN. |
| BlastPredictNian.Nian.FlagTrue | blast_predict_nian.py:92-97 | `nian_prediction` of row `i` is true iff at least `W` rows exist up to it and each of the last `W` rows is favourable. |
| BlastPredictNian.Nian.FlagUnknown | blast_predict_nian.py:92-99 | The prediction of row `i` is unknown iff fewer than `W` rows exist up to it or one of the last `W` rows has a NaN reading. |
| BlastPredictNian.Nian.FirstWindowUnknown | blast_predict_nian.py:80-99 | With row 0's TxMaxAbs cleared, the TxMaxAbs rolling column and the prediction are unknown on rows `0..W-1`. |
| BlastPredictNian.Nian.NianFormula | blast_predict_nian.py:73-99 | Row 0's TxMaxAbs becomes NaN and no other reading changes. With RH present, the two condition, two rolling and prediction columns are added. Without RH, only the TxMaxAbs condition has been written. |
| BlastDT3.Normalize | BlastDT3.py:52-71 | The cleaned, reindexed, windowed frame is well-formed; its rows are stated by `BlastDT3.NormalizeRows` and its readings by `BlastDT3.NormalizeValues`. |
| BlastDT3.CalendarSpan | BlastDT3.py:52-58 | After dropping repeated dates and reindexing, the frame covers every day from the earliest to the latest loaded date exactly once, in order, over the loaded columns. |
| BlastDT3.NormalizeRows | BlastDT3.py:52-71 | The rows are exactly the days that lie both between the earliest and latest loaded date and in `[start, end]`, consecutive and in order; an unparsable date column gives the empty frame. |
| BlastDT3.NormalizeValues | BlastDT3.py:55-71 | On a day that was loaded, the reading comes from the first loaded row of that day: a known, non-sentinel reading there is kept unchanged; and no known reading of the result, loaded or inserted day, lies below -99. |
| BlastDT3.CalendarCell | BlastDT3.py:55-56 | After dropping repeated dates and reindexing, a loaded day carries the readings of its first loaded row. |
| BlastDT3.Nian.GetDailyWeather | BlastDT3.py:27-72 | The loader returns the normalisation of the concatenated readable years; an unreadable year is skipped whether or not `weather_data` exists. |
| BlastDT3.Nian.FlagMeaning | BlastDT3.py:96-107 | The `BlastDT3` flag is never unknown, is true iff TxMaxAbs >= lower, Tx < upper and RH >= threshold hold on known readings that day, and is false on any day with a NaN reading. |
| BlastDT3.Nian.BlastDT3 | BlastDT3.py:80-107 | No reading changes and row 0 is not cleared. With all three readings present, the three condition columns and the flag are added. Otherwise nothing is written. |
| Text.Iso | consolidate_daily.py:60 | `strftime("%Y-%m-%d")` is ten characters with dashes at positions 4 and 7. |
| Text.CompactIsIsoWithoutDashes | consolidate_daily.py:76 | Re-reading an ISO key and writing it as `%Y%m%d` is the key with its dashes removed. |
| Text.LexLeTotal | consolidate_daily.py:73-74 | String order on station ids is total. |
| Text.LexLeTransitive | consolidate_daily.py:73-74 | String order on station ids is transitive. |
| ConsolidateDaily.RenameDate | consolidate_daily.py:40-41 | A `Date` column is renamed to `日期` with its values; a table without `Date` is unchanged. |
| ConsolidateDaily.Admissible | consolidate_daily.py:39-56 | A table that passes the checks has, after renaming, the `日期` column and the forecast column; that these checks decide whether a table is used is `ConsolidateDaily.Subset`. |
| ConsolidateDaily.Subset | consolidate_daily.py:39-61 | A table is used iff it has a date column under either name, the version's forecast column and all six required columns; its surviving rows carry ISO dates. |
| ConsolidateDaily.Survivors | consolidate_daily.py:58-61 | No more rows survive than came in, and every surviving date is an ISO date string; which rows survive is stated by `ConsolidateDaily.SurvivorsComplete` and `ConsolidateDaily.SurvivorsSound`. |
| ConsolidateDaily.SurvivorsComplete | consolidate_daily.py:58-61 | Every row whose date parses survives, reduced to the output columns with its date normalised. |
| ConsolidateDaily.SurvivorsSound | consolidate_daily.py:58-61 | Every surviving row is the projection of an input row whose date parses. |
| ConsolidateDaily.Entries | consolidate_daily.py:28-66 | Every row appended to `daily_data` carries an ISO date. |
| ConsolidateDaily.Keys | consolidate_daily.py:64-66 | There is a key as soon as one row is appended, and none before; `ConsolidateDaily.KeysDistinct` and `ConsolidateDaily.KeysAreDates` state which keys, each once. |
| ConsolidateDaily.Bucket | consolidate_daily.py:64-66 | A bucket holds no more rows than were appended; `ConsolidateDaily.BucketCount` states which rows, all of its own date. |
| ConsolidateDaily.KeysDistinct | consolidate_daily.py:64-66 | Each date becomes a key of `daily_data` once. |
| ConsolidateDaily.KeysAreDates | consolidate_daily.py:64-66 | The keys of `daily_data` are exactly the dates of the rows appended. |
| ConsolidateDaily.BucketCount | consolidate_daily.py:64-66 | A date's bucket holds each row of that date as often as it was appended, and no row of another date. |
| ConsolidateDaily.BucketOfNonKey | consolidate_daily.py:64-66 | A string that is not a key has an empty bucket. |
| ConsolidateDaily.RowFiled | consolidate_daily.py:64-66 | Every row lands in exactly one bucket, the one of its date, and that date is a key. |
| ConsolidateDaily.AppendRow | consolidate_daily.py:65-66 | Appending a row to its date's bucket (creating the key when new) keeps keys and buckets in step with the rows seen. |
| ConsolidateDaily.AddRow | consolidate_daily.py:65-66 | The defaultdict append preserves that correspondence. |
| ConsolidateDaily.AddRows | consolidate_daily.py:64-66 | The row loop over one table preserves it for all the table's rows. |
| ConsolidateDaily.Insert | consolidate_daily.py:74 | Inserting a row lengthens the rows by one and the row is among them; `ConsolidateDaily.InsertPermutes` and `ConsolidateDaily.InsertSorted` state the rest. |
| ConsolidateDaily.InsertPermutes | consolidate_daily.py:74 | Inserting a row adds exactly that row. |
| ConsolidateDaily.InsertSorted | consolidate_daily.py:74 | Inserting into rows sorted by station id keeps them sorted. |
| ConsolidateDaily.SortByStation | consolidate_daily.py:73-74 | The sort returns the bucket's rows, as a multiset, ordered by station id as strings. |
| ConsolidateDaily.FileName | consolidate_daily.py:76-77 | The file name has the length of the compact date plus the forecast column plus five, and ends in `.csv`; that it is the key's `%Y%m%d` day, `_`, the forecast column and `.csv` is `ConsolidateDaily.KeyFileName`. |
| ConsolidateDaily.KeyFileName | consolidate_daily.py:76-77 | Each key is the ISO string of a day and its file is named `%Y%m%d` of that day, `_`, the forecast column, `.csv`. |
| ConsolidateDaily.WriteBuckets | consolidate_daily.py:69-79 | One file per key in insertion order, named after the key and holding that key's bucket sorted by station id. |
| ConsolidateDaily.ConsolidateVersion | consolidate_daily.py:24-79 | A version's files are one per date met in its readable, admissible tables, each with exactly that date's surviving rows, sorted by station id. |
| ConsolidateDaily.ConsolidateForecasts | consolidate_daily.py:6-24 | The three versions in order; a missing folder yields no file, and each version is grouped from its own folder only. |
| Scenarios.HumidityPerDay | BlastDT2.py:101-103 | RH `[70, 80, 75, 78]` under `RH >= 77` gives `[false, true, false, true]`. |
| Scenarios.HumidityWindowOfOne | BlastDT2.py:105-107 | With a one-day window the rolling column equals the daily one. |
| Scenarios.HumidityWindowOfThree | BlastDT2.py:105-107 | With a three-day window: unknown, unknown, false, false. |
| Scenarios.MissingTemperature | BlastDT2.py:93-96 | Tx `[NaN, 25, 26]` under `Tx <= 30` gives unknown, true, true. |
| Scenarios.RepeatedDateKeepsFirst | BlastDT2.py:52 | A date loaded twice keeps the readings of its first row. |
| Scenarios.SentinelInterpolated | BlastDT2.py:62-68 | `[20, -9.8, 22]` becomes `[20, 21, 22]`. |
| Scenarios.InterpolationMeetsSentinel | BlastDT2.py:62-68 | Interpolating between -5 and -14.6 gives exactly -9.8, a sentinel code, after the scrub has run. |

## Left out

- CSV reading and writing, paths built from station and year, the folder
  walk (`os.listdir`, `glob`), `os.makedirs`, printing, the remote station
  list (`load_weather_station`), git clone and removal of `weather_data`,
  `argparse` and the `__main__` station filtering: I/O and plumbing. A year
  file is an optional table, a version folder a list of optional tables.
- The `raw` parameter of `get_daily_weather`: it is never read.
- `pd.to_datetime` itself. Date cells arrive already parsed (or not) as
  day numbers, and in `consolidate_daily.py` parsing is a function
  parameter. Date strings with a time component are not modelled.
- IEEE floating point: readings and thresholds are exact reals, sentinel
  tests are exact equality, and NaN is `None`. `astype(float)` and
  `select_dtypes` are identities, since all reading columns are numeric.
- `df.loc[0, ...]` on an empty frame, which pandas turns into a one-row
  frame. On zero rows the model only creates the column, with no rows.
- Window lengths below one (`rolling(0)` and negative windows).
- A table having both `Date` and `日期` columns. `rename` then produces two
  `日期` columns; the model keeps one column holding the `Date` values.
- `ConsolidateDaily.SortByStation` is an insertion sort on a sequence,
  not pandas' in-place sort. It promises only the order of station ids and
  the multiset of rows: the order among equal ids is unspecified in the
  source as well.
- `ConsolidateDaily.ConsolidateVersion` takes the files of a folder in the
  order `os.listdir` and `glob` return them. That order is an input, so it
  decides only the insertion order of keys and the order of rows in a
  bucket before sorting.
- `astype(str)` on station ids: ids are already strings.
- `BlastDT2.NormalizeValues` does not promise that no sentinel is left.
  Interpolation between two valid readings can land exactly on -9.8, as
  `Scenarios.InterpolationMeetsSentinel` shows; only values below -99 are
  ruled out. The same holds for `BlastDT3.NormalizeValues` and
  `BlastPredictNian.NormalizeValues`.
