# Covid-19 India dashboard: the data logic, in Dafny

The dashboard fetches two national feeds, puts them into pandas tables, derives
"active" case counts, offers a state picker, and draws a choropleth map of
cumulative counts per state. This project models the deterministic data logic
behind it and proves what that logic does:

- `IndiaData` (`india_data.dfy`). The date-label normaliser `convert`: Python
  `str.split()` over the full whitespace set, the January–July month table, and
  the hard-coded year. Also the way `get_data` applies it to every row's `date`
  cell.
- `StatesData` (`states_data.dfy`). The region-code table `MAPPER`: 37 state/UT
  codes plus the `tt`, `un`, `date` and `status` labels that map to themselves.
  Also the position-by-position relabelling of the state feed's columns.
- `Tables` (`tables.dfy`). The part of pandas the preprocessing relies on.
  Cells are numbers, strings or NaN. Column lookup raises `KeyError`.
  Column subtraction gives NaN on a row where either side is missing, and raises
  `TypeError` only when text meets a present value.
  `df[name] = values` overwrites a column in place or appends it last. The
  table updated in place is the class `DataFrame`.
- `App` (`app.dfy`). `preprocess_india_data` and `preprocess_states_data` as
  methods that change the table they are given. The two are proved against the
  functions `PreprocessIndia` and `PreprocessStates`. Also the state option
  list: `unique()` without the national row.
- `MapsUtils` (`maps_utils.dfy`). `give_data`, which:
  - keeps the rows of one status;
  - takes a running sum per state column in stored order;
  - picks the row of one date;
  - patches geometry name 7 in place (an `array` write);
  - inner-joins on the state name.

  Dates are an opaque type parameter. The geometry table is passed in as its
  sequence of state names.
- `Wrappers` (`wrappers.dfy`). `Option` and `Result`.

Python exceptions become `Err` values, in the order Python raises them:
- `(A - B) - C` looks up A, then B, subtracts (which may raise `TypeError`), then looks up C.
- `preprocess_india_data` keeps `Total Active` assigned when the `Daily` step
  then fails.

## Model

| member | source | states |
|---|---|---|
| IndiaData.Split | india_data.py:12 | every token `str.split()` returns is a non-empty run of non-whitespace characters |
| IndiaData.SplitJoinWords | india_data.py:12 | splitting words joined by single spaces gives the same words back |
| IndiaData.SplitAllSpace | india_data.py:12 | a string of whitespace alone, of any kind and length, has no tokens |
| IndiaData.SplitSkipsSpace | india_data.py:12 | whitespace in front of a string does not change its tokens |
| IndiaData.SplitWord | india_data.py:12 | a word followed by a non-empty run of whitespace is the first token, and the rest splits on its own |
| IndiaData.SplitAnySpacing | india_data.py:12 | any whitespace before, between and after two words yields exactly those two tokens |
| IndiaData.MonthNumbers | india_data.py:6 | the month table covers exactly January–July, maps January to "01" and July to "07", and every code is "0" followed by a digit 1–7 |
| IndiaData.MonthsInjective | india_data.py:6 | two different month names never share a two-digit code |
| IndiaData.Convert | india_data.py:11-14 | fewer than two tokens raises IndexError, and only then; KeyError(month) exactly when the second token is not in the month table; a converted label always ends in "-2020" |
| IndiaData.ConvertWords | india_data.py:11-14 | for any day token, month token and extra tokens: the result is day + "-" + MM + "-2020" when the month is known, with the day copied unchanged and the extra tokens ignored; otherwise KeyError(month) |
| IndiaData.ConvertRoundTrip | india_data.py:11-14 | "day Month" converts, and reading the converted label back gives "day Month" again |
| IndiaData.MonthNameInverse | india_data.py:6 | looking a two-digit code back up gives the month name that has it |
| IndiaData.UnconvertRoundTrip | india_data.py:11-14 | every label of the form day-MM-2020 with a known MM is the conversion of some "day Month" |
| IndiaData.ConvertInjectiveInMonth | india_data.py:13 | the same day with two different valid months gives two different labels |
| IndiaData.ConvertUnknownMonth | india_data.py:13 | any month token outside the table raises KeyError with that token |
| IndiaData.ConvertRejectsOtherMonths | india_data.py:6-13 | "january", "Jan" and "August" are all rejected with KeyError |
| IndiaData.ConvertRejectsDayOnly | india_data.py:12-13 | a day with no month raises IndexError |
| IndiaData.ConvertNormalises | india_data.py:11-14 | convert sees its input only through its tokens: every label converts as its tokens joined by single spaces do |
| IndiaData.ConvertAnySpacing | india_data.py:11-14 | leading, trailing, repeated or non-space whitespace around day and month gives the same result as "day Month" |
| IndiaData.ConvertExample | india_data.py:11-14 | "30 January" becomes "30-01-2020" |
| IndiaData.ConvertDates | india_data.py:21 | succeeds exactly when every row's date converts; then the row count and order are kept, every other cell is kept, and each date is its conversion; otherwise the error is that of the first row that fails |
| StatesData.MapperDomain | states_data.py:6-9 | the table's keys are exactly the 41 listed codes |
| StatesData.MapperKeepsSentinels | states_data.py:8-9 | `tt`, `un`, `date` and `status` map to themselves |
| StatesData.MapperRenamesCodes | states_data.py:6-9 | every other code is renamed to something other than itself |
| StatesData.MapperInverse | states_data.py:6-9 | every name in the table leads back to its own code, so the table is invertible |
| StatesData.MapperInjective | states_data.py:6-9 | two different codes never map to the same name |
| StatesData.Relabel | states_data.py:19 | one label per column, in the same positions; a known code becomes its name and an unknown one becomes a missing label |
| StatesData.GetData | states_data.py:18-19 | the rows are untouched; the column count is kept; each column label is relabelled |
| StatesData.RelabelDistinct | states_data.py:6-19 | distinct known codes give distinct column labels |
| StatesData.RelabelRoundTrip | states_data.py:6-19 | every relabelled known column leads back to its code |
| StatesData.RelabelKeepsSentinels | states_data.py:8-9 | the sentinel columns survive the relabel unchanged |
| StatesData.RelabelUnknownCode | states_data.py:19 | an unknown code is not rejected: "zz" beside "an" gives a missing label beside the full name |
| Tables.Column | app.py:29 | a column lookup succeeds exactly when the label exists, and otherwise raises KeyError with that label |
| Tables.Put | app.py:29 | assignment keeps the table well formed; only the named column changes; an existing label keeps its position and a new one is appended last |
| Tables.CellSub | app.py:29 | on a computable row, the difference is NaN exactly when either side is NaN, and a number exactly when both are numbers, namely their difference |
| Tables.SubColumns | app.py:29 | column subtraction succeeds exactly when no row has text opposite a present value, and is then elementwise CellSub; otherwise TypeError |
| Tables.ReplaceNaN | app.py:35 | the copy has NaN replaced by the given value and every other cell kept |
| Tables.DataFrame.constructor | app.py:28 | wraps a well-formed table whose value is the given table |
| Tables.DataFrame.Assign | app.py:29 | the object is changed in place to `Put` of its old value |
| App.ActiveColumn | app.py:29 | errors in Python's order: KeyError for Confirmed, then Recovered, then TypeError from Confirmed − Recovered, then KeyError for Deceased, then TypeError from the second subtraction; it succeeds exactly when the three columns exist and every row can be computed, and every row is then Confirmed − Recovered − Deceased, or NaN where a count is missing |
| App.AddActive | app.py:29 | on success the target column is assigned the per-row differences; on failure the table is unchanged and the error is the subtraction's |
| App.AddActiveRepeat | app.py:28-38 | adding an active column twice gives the same table and outcome as adding it once |
| App.PreprocessIndia | app.py:28-32 | keeps the table well formed with the same row count; when the Total step raises, the table is unchanged and that error propagates; once it succeeds, Total Active stays assigned; when the Daily step then raises, only Total Active has been added and the Daily error propagates |
| App.PreprocessIndiaData | app.py:28-32 | the frame passed in is changed in place to what `PreprocessIndia` describes, and the raised error is reported |
| App.IndiaKeepsOtherColumns | app.py:28-32 | every column other than the two Active columns is unchanged |
| App.IndiaAppendsLabels | app.py:28-32 | the old labels stay a prefix, in order, and the only new labels are Total Active and Daily Active |
| App.IndiaAppendsInOrder | app.py:28-32 | on a frame with neither Active column, a successful step appends Total Active and then Daily Active, after the old labels |
| App.IndiaSucceedsIff | app.py:28-32 | the step succeeds exactly when both the Total and the Daily inputs exist and every row of both differences can be computed |
| App.IndiaActiveRows | app.py:29-30 | Total Active comes from the Total columns and Daily Active independently from the Daily columns, row by row |
| App.IndiaActiveCanBeNegative | app.py:29-30 | active values are not clamped: when Recovered + Deceased exceeds Confirmed they are negative |
| App.IndiaIdempotent | app.py:28-32 | applying the step twice gives the same table and outcome as applying it once |
| App.PreprocessStates | app.py:34-38 | other columns are kept; the old labels stay a prefix; it succeeds exactly when the inputs are present and every row can be computed, and then every row's Active is Confirmed − Recovered − Deceased; on failure the table is unchanged |
| App.PreprocessStatesData | app.py:34-38 | the frame is changed in place to what `PreprocessStates` describes; the NaN-replaced copy is discarded |
| App.StatesKeepsNaN | app.py:35-36 | the replace would give a zero, yet a missing Confirmed count stays NaN and its Active cell is NaN |
| App.StatesTextBesideMissing | app.py:36 | text opposite a missing count does not raise: the step succeeds and that row's Active is NaN |
| App.StatesTextBesideNumber | app.py:36 | text opposite a present count raises TypeError and leaves the frame as it was |
| App.StatesIdempotent | app.py:34-38 | applying the step twice gives the same table and outcome as applying it once |
| App.Unique | app.py:59 | holds exactly the values of the input, each once |
| App.UniqueOrder | app.py:59 | the values appear in the order of their first appearance |
| App.Without | app.py:59 | holds exactly the input values other than the excluded one |
| App.WithoutKeepsOrder | app.py:59 | removing a value keeps the others in their order |
| App.StateOptions | app.py:59 | KeyError when there is no State column; otherwise the options are exactly the State values other than "India" |
| App.StateOptionsOrder | app.py:59 | each option appears once, in first-appearance order |
| MapsUtils.WithStatus | maps_utils.py:19 | the filter never yields more rows than it is given, and the kept rows have the same width as the input |
| MapsUtils.WithStatusAppend | maps_utils.py:19 | filtering two blocks of rows one after the other gives the filtered first block followed by the filtered second block |
| MapsUtils.WithStatusKeeps | maps_utils.py:19 | the filtered rows are exactly the rows of the requested status |
| MapsUtils.WithStatusIgnoresOtherRows | maps_utils.py:19 | inserting a row of another status anywhere changes nothing |
| MapsUtils.RunningTotals | maps_utils.py:19 | one running-total row per input row, each with one entry per state column |
| MapsUtils.RunningTotalsAreColumnSums | maps_utils.py:19 | the running total at row i is the sum of that column over rows 0..i in stored order |
| MapsUtils.ColumnSumGrows | maps_utils.py:19 | with non-negative counts, a longer prefix never sums to less |
| MapsUtils.CumulativeNeverDecreases | maps_utils.py:19 | with non-negative daily counts, a state's running total at a later row is never smaller |
| MapsUtils.CumsumFollowsStoredOrder | maps_utils.py:19 | rows are summed in stored order even when their dates are out of order |
| MapsUtils.DatePositions | maps_utils.py:19 | lists, in increasing order, exactly the row positions that carry the date |
| MapsUtils.StateValues | maps_utils.py:19-20 | KeyError exactly when no row of the status has the date; ValueError exactly when several do; otherwise one entry per state column, in column order, named after it |
| MapsUtils.StateValueIsCumulativeSum | maps_utils.py:19-20 | each state's value is its column's sum over the status rows up to and including the date's row |
| MapsUtils.PatchGeometry | maps_utils.py:23 | IndexError exactly when there are at most 7 features; otherwise name 7 becomes the patch and every other name is kept |
| MapsUtils.PatchGeometryNames | maps_utils.py:23 | the array is written in place as `PatchGeometry` describes, or left unchanged on IndexError |
| MapsUtils.Matches | maps_utils.py:24 | the merged rows for one feature are exactly its name paired with each value the state-value table holds under that name |
| MapsUtils.MatchesCount | maps_utils.py:24 | one feature gets each matching state value as many times as the table holds it |
| MapsUtils.InnerJoin | maps_utils.py:24 | a merged row exists exactly for each pair of a geometry feature and a state value with the same name, and carries that value; rows follow geometry order |
| MapsUtils.InnerJoinCount | maps_utils.py:24 | multiplicity: each merged row occurs exactly as often as its state value occurs in the table when its feature has that name, and never otherwise |
| MapsUtils.InnerJoinNames | maps_utils.py:24 | the merged names are exactly those in both the geometry table and the state-value table |
| MapsUtils.GiveDataWith | maps_utils.py:18-26 | a date error comes first, then IndexError exactly when there are too few features; a success is exactly `InnerJoin` of the patched names with the state values, so `InnerJoinCount` gives its multiplicities |
| MapsUtils.GiveData | maps_utils.py:18-26 | succeeds exactly when the date is found once among the status rows and there are more than 7 features; then feature 7 carries the patch name "Dadra and Nagar Haveli Daman and Diu" and every other merged row carries its feature's own geometry name |
| MapsUtils.GiveDataIntended | maps_utils.py:18-26 | the same, with the region-code table's name for `dd` written at feature 7 |
| MapsUtils.MapperNameOfDd | states_data.py:6 | the table's name for `dd` is "Dadra and Nagar Haveli and Daman and Diu" |
| MapsUtils.PatchedNameNotInMapper | maps_utils.py:23 | the name written at position 7 is not a name in the region-code table |
| MapsUtils.RelabelNeverGivesPatchedName | states_data.py:6-19 | no column relabelled through the region-code table is ever named "Dadra and Nagar Haveli Daman and Diu" |
| MapsUtils.PatchedFeatureNeverJoined | maps_utils.py:23-24 | when no state column carries the patch name, as is the case for columns relabelled through the region-code table, feature 7 never appears in the result |
| MapsUtils.IntendedKeepsPatchedFeature | maps_utils.py:23-24 | with the table's own name patched in, feature 7 joins whenever the `dd` column is present |

## Left out

- Fetching and writing data is not modelled: `requests.get`, `pd.read_csv` of URLs, JSON decoding and the `to_csv` calls. These are I/O with no logic of their own.
- The shapefile read (maps_utils.py:22) is replaced by a parameter: the geometry table is passed in as its names. Polygons are not modelled.
- Rendering is not modelled: `give_india_map`, `HUE_MAPPER`, the Bokeh and Plotly figures, and the Streamlit widgets other than the option list at app.py:59.
- `@st.cache` and `st.set_page_config` are framework behaviour and are not modelled.
- Tables.SubColumns: follows pandas' fallback for text columns (retry on the rows where both sides are present, NaN elsewhere). Other cell kinds pandas can hold (booleans, `None`, dates) are not modelled.
- Floating point is not modelled. Counts are unbounded integers, so int64 overflow and the float columns pandas makes when NaN is present are not captured. Missing values are the single cell `NaN`.
- pandas date parsing is not modelled. Dates in `give_data` are opaque keys compared for equality.
- MapsUtils.StateValues: a repeated date is reported as `ValueError`. With a repeated date, `.loc[date]` selects a frame rather than a row, and building the two-column frame at maps_utils.py:20 from its two-dimensional values then fails. pandas 1.2 and later raise `ValueError` there; earlier versions raise a bare `Exception`.
- MapsUtils.StateValues: daily counts are integers, so the NaN skipping of `cumsum` and string-valued counts are not modelled. The `KeyError` for an absent status is the same `KeyError` as for an absent date.
- MapsUtils.InnerJoin: when several features or several state values share a name, the merged rows are listed feature by feature, each with its matching values in table order. pandas' exact row order for such duplicate keys is not claimed.
- The code is followed rather than a stricter design in four places:
  - no sort before the running sum;
  - unknown region codes are not rejected;
  - the `tt`/`un` columns are kept;
  - the NaN→0 `replace` at app.py:35 changes nothing.

## Findings

| source | as written | input that shows it | evidently intended | confidence | as-written member | corrected member |
|---|---|---|---|---|---|---|
| maps_utils.py:23 | geometry feature 7 is renamed "Dadra and Nagar Haveli Daman and Diu", a name the region-code table (states_data.py:6) never produces | a state frame whose columns were renamed through the table, at least 8 geometry features, and a date present once: feature 7 is dropped by the inner join | the table's own name "Dadra and Nagar Haveli and Daman and Diu", so the merged union territory keeps its feature | medium, not executed | MapsUtils.PatchedFeatureNeverJoined, MapsUtils.RelabelNeverGivesPatchedName | MapsUtils.IntendedKeepsPatchedFeature |
