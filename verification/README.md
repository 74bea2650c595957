# Strava activities dashboard: schema inference, normalisation and filters

This project models the data-handling core of a dashboard that loads an exported activities table and shows statistics over a filtered view of it. The model covers four parts of `app.py`:

- **Column-role inference** (`Schema`). Given the ordered column names, it picks the date, activity-type, distance, elevation, moving-time, calorie, average/maximum heart-rate and gear columns. Date and type use exact names with a fixed priority. Most other roles take the *first* column whose lower-cased name contains a keyword. The two heart-rate roles have no `break` in their loop, so they take the *last* such column.
- **Preprocessing** (`Preprocess`). The date column is parsed as timestamps. Every text column whose name carries a distance, elevation, calorie or heart-rate keyword has all its commas stripped and is parsed as a number, and cells that do not parse become missing. Text time columns become durations only when every cell parses.
- **Filter pipeline** (`Filters`). Four steps run in order: activity-type membership, gear membership, an inclusive date range and an inclusive distance range. Each keeps an order-preserving subsequence of its input and is skipped when its role was not detected.
- **Weekday counts** (`Weekdays`). Activities are counted per day of the week in the fixed Monday..Sunday order, with 0 for days that have none.

Two support modules sit underneath. `Strings` holds ASCII lower-casing, Python's substring test and comma stripping. `Seqs` holds order-preserving selection, which is the shape of a boolean-mask row filter.

Conventions:
- Missing values (NaN / NaT) are `None`.
- Cell parsers are parameters: the `Parsers` datatype holds the number, timestamp and duration parsers.
- A timestamp is a day count from 1970-01-01 plus nanoseconds into the day. The date filter compares the day count, as `.dt.date` does.
- Rows reaching the filters are records holding the four columns the filters read (`Filters.Row`).

## Model

| member | source | states |
|---|---|---|
| Seqs.Select | app.py:165 | A boolean-mask filter keeps a subsequence of its input. A row is kept exactly when it is in the input and passes the test. |
| Seqs.SelectCounts | app.py:165 | A row that passes the test is kept as many times as it occurs in the input. A row that fails it does not occur at all. |
| Seqs.SelectSelect | app.py:165-214 | Two successive masks equal one mask by the conjunction of their tests. |
| Strings.ContainsIffOccurs | app.py:111 | The left-to-right substring scan succeeds exactly when the keyword occurs at some position of the name. |
| Strings.StripCommas | app.py:73 | `str.replace(',', '')` leaves no comma, keeps the other characters in order as a subsequence, and keeps every non-comma character with its count. |
| Strings.StripCommasIdempotent | app.py:73 | Stripping commas twice gives the same string as stripping once. |
| Strings.StripCommasAppend | app.py:73 | Stripping works piece by piece over concatenation, so each character is handled on its own. |
| Strings.StripThousandsSeparator | app.py:73 | "1,234.5" becomes "1234.5". |
| Strings.StripDecimalComma | app.py:73 | A decimal comma is also removed: "10,5" becomes "105", not "10.5". |
| Schema.FirstIndex | app.py:109-113 | The loop with `break` returns the first column satisfying the rule, and every earlier column fails it. It returns none exactly when no column satisfies the rule. |
| Schema.LastIndex | app.py:137-143 | The loop without `break` returns the last column satisfying the rule, and every later column fails it. It returns none exactly when no column satisfies the rule. |
| Schema.ScanLast | app.py:139-143 | One step of the no-`break` loop keeps its invariant: the accumulator is the last match among the columns seen so far. |
| Schema.ExactPriority | app.py:107 | 'Activity Date' is chosen whenever it is present. 'Date' is chosen only if 'Activity Date' is absent. The result is none exactly when neither exact name is present. |
| Schema.DetectRoles | app.py:106-150 | Date is 'Activity Date' when present, else 'Date' when present, else none. Type follows the same pattern with 'Activity Type' and 'Type'. Distance, elevation, moving time, calories and gear are first matches. Average and maximum heart rate are last matches. |
| Schema.CaloriesRuleIsCaloriesKeyword | app.py:132 | `'calories' in c or 'kilocalories' in c` is equivalent to `'calories' in c`. |
| Schema.CalorieRoleByCaloriesAlone | app.py:130-134 | Dropping the 'kilocalories' alternative picks the same calorie column for every table. |
| Schema.ExactRolesIgnoreVariants | app.py:107-115 | 'Activity Date (local)', 'activity type' and 'Dates' fill neither exact-name role. There is no substring or case-insensitive matching. |
| Schema.ExactRolesIgnoreOrder | app.py:107-115 | Two column lists holding the same names give the same exact-priority result, so the date and type roles never depend on column order. |
| Schema.ActivityDateBeforeDate | app.py:107-115 | With both names present, 'Activity Date' and 'Activity Type' win whatever the column order. |
| Schema.OneColumnFillsBothHeartRateRoles | app.py:137-143 | A single column named 'Avg Max Heart Rate' fills both heart-rate roles. |
| Schema.LaterHeartRateColumnWins | app.py:139-143 | With two max-heart-rate columns, the later one is chosen. |
| Schema.EarlierDistanceColumnWins | app.py:109-113 | With two distance columns, the earlier one is chosen. |
| Preprocess.Preprocess | app.py:60-102 | Preprocessing fails exactly when the date column holds a date that does not parse. Otherwise it keeps column names and order and rewrites each column on its own: date, then numeric, then duration, else unchanged. |
| Preprocess.PreprocessKeepsRoles | app.py:104-150 | Roles detected after preprocessing are the roles of the uploaded column names. |
| Preprocess.NumericColumnsCommaStripped | app.py:69-91 | Non-text columns are left unchanged. A numeric-keyword text column other than the date column becomes numbers cell by cell: the commas are stripped before parsing, and a missing cell stays missing. |
| Preprocess.SpansAllOrNothing | app.py:93-100 | A text time column becomes durations exactly when every present cell parses. Otherwise the failing conversion is swallowed and the column is kept as it was. |
| Preprocess.DateNamesNotNumeric | app.py:64-91 | Neither 'Activity Date' nor 'Date' carries a numeric keyword, so the date column is never comma-stripped. |
| Preprocess.RawNumericColumnsBecomeNumbers | app.py:69-91 | After preprocessing a freshly read table (text and number columns only), every numeric-keyword column holds numbers. |
| Preprocess.ThousandsSeparatorCell | app.py:73 | The cell "1,234.5" reaches the number parser as "1234.5". |
| Filters.ActivityFilter | app.py:159-167 | The step is skipped without an activity role. Otherwise it keeps, in order, every occurrence of each row whose type (possibly missing) is selected, and no other row. |
| Filters.ActivityFilterIdempotent | app.py:165 | Applying the activity step twice equals applying it once. |
| Filters.ActivityDefaultKeepsAll | app.py:160-165 | The default selection, every distinct type, keeps every row. |
| Filters.ActivityEmptySelection | app.py:165 | An empty selection gives an empty table. |
| Filters.GearFilter | app.py:169-178 | The step is skipped when there is no gear role or no row has gear. Otherwise it keeps, in order, every occurrence of each row with selected, present gear, and no other row. |
| Filters.GearFilterDropsMissingGear | app.py:171-178 | An active gear step never keeps a row without gear. |
| Filters.GearDefaultDropsMissingGear | app.py:171-178 | Even the default selection, every gear option, drops the activities that have no gear. |
| Filters.GearFilterIdempotent | app.py:169-178 | Applying the gear step twice equals applying it once. |
| Filters.DateFilter | app.py:180-196 | The step is skipped without a date role or unless exactly two bounds are given. Otherwise it keeps, in order, every occurrence of each row whose calendar day lies within both bounds inclusive, and drops missing dates. |
| Filters.DateFilterIdempotent | app.py:192-196 | Applying the date step twice equals applying it once. |
| Filters.DaySpan | app.py:182-183 | The default bounds are the smallest and largest present day. Both are attained, and all present days lie between them. There are none exactly when no row has a date. |
| Filters.DateDefaultKeepsDated | app.py:182-196 | With the default bounds, every dated row survives and every undated row is dropped. |
| Filters.DistanceFilter | app.py:198-214 | The step is skipped without a distance role. Otherwise it keeps, in order, every occurrence of each row whose distance lies within both bounds inclusive, and drops missing distances. |
| Filters.DistanceFilterIdempotent | app.py:211-214 | Applying the distance step twice equals applying it once. |
| Filters.DistanceSpan | app.py:200-201 | The default bounds are the smallest and largest present distance. Both are attained, and all present distances lie between them. |
| Filters.DistanceDefaultKeepsMeasured | app.py:200-214 | With the default bounds, every row with a distance survives and every row without one is dropped. |
| Filters.PipelineIsConjunction | app.py:159-214 | The four steps together keep, in order, exactly the rows that every active step admits. Whether the gear step is active is decided on the rows left by the activity step. |
| Filters.PipelineIdempotent | app.py:159-214 | Re-applying the same filter state to the filtered table changes nothing. |
| Weekdays.WeekdayCounts | app.py:445-450 | There are seven counts in Monday..Sunday order. The count at each position is the number of rows whose weekday has that name (0 when there are none), and the counts sum to the number of dated rows. |
| Weekdays.NewYear2024IsMonday | app.py:154 | 2024-01-01 is named Monday and lands in the first count. |

## Left out

- Streamlit page setup, widgets, metrics, tabs and caching (app.py:10-46, 216-590): presentation only. Widget results enter the model as `Filters.FilterState`.
- Plotly charts, and the per-weekday distance, calorie and heart-rate aggregates (app.py:272-502): floating-point sums and means over a plotting library.
- CSV reading, CSV export and the export timestamp (app.py:52-54, 512-518): file I/O and the wall clock.
- Number, timestamp and duration parsing (`pd.to_numeric`, `pd.to_datetime`, `pd.to_timedelta`): abstract parameters in `Preprocess.Parsers`. Only their success or failure on one cell and the comma stripping before number parsing are modelled.
- Schema.Matches: lower-cases ASCII letters only, whereas Python's `str.lower` also folds non-ASCII letters.
- Preprocess.Preprocess: a date column that is not text is left unchanged. `pd.to_datetime` would read numbers as epoch offsets.
- Preprocess.Preprocess: dates are parsed cell by cell. `pd.to_datetime` without a `format` (app.py:65, 67) infers one format from the first present cell and rejects later cells in another format, so a column of dates in mixed formats fails in the program but succeeds in the model.
- Object columns that mix strings with numbers are not modelled. A text column holds only strings or missing values.
- Rows are not derived from the column table. `Filters.Row` is the projection onto the date, type, gear and distance roles, already in their preprocessed types.
- The distance slider's bounds are taken as given. The case where every distance is missing, so the slider's bounds would be NaN, is not modelled.
- Filters.DateFilter: the case where no row reaching the date step has a date (`Filters.DaySpan` is `None`) is not modelled. The picker's default bounds at app.py:182-190 would then be NaT, which the integer bounds cannot hold.
- The weekly tab's check for a 'Day of Week' column (app.py:445) has no member of its own. That column exists exactly when the date role does, unless the upload already has a 'Day of Week' column, which is not modelled. `Weekdays.WeekdayOf` is missing for a row without a date.
- sample_data_generator.py and streamlit_app.py: random test data and an upload stub, with no logic to state.

Behaviour of app.py that a reader might not expect, and that the model keeps:
- A date that fails to parse aborts preprocessing, because the conversion at app.py:64-67 has no `try`. The model returns `Failure(UnparseableDate(..))`.
- The date and type roles use exact names (app.py:107, 115), not keyword matches. The heart-rate roles take the last matching column, because the loop at app.py:139-143 has no `break`.
- Every comma is stripped before number parsing (app.py:73), so "1,234" becomes "1234" and "10,5" becomes "105".
- Whether the gear step runs depends on the rows left by the activity step (app.py:170-171), as `Filters.PipelineIsConjunction` states.
