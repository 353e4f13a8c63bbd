# Travian map viewer: the data pipeline of `app.py`, in Dafny

`app.py` is a Streamlit page that reads a Google Sheet of Travian map points
(category `Tip`, name `İsim`, coordinates `X`, `Y`), lets the user filter them
by category and by name, computes the distance between two named points, and
draws them as one Plotly scatter trace per category on a fixed −200..200 map.

This project models that pipeline:

- `Loader` (`loader.dfy`) is `load_data`. Each raw row is the four-column window,
  X and Y are coerced to numbers by a parse function, and rows with a missing
  coordinate are dropped.
- `Filters` (`filters.dfy`) is the sidebar filter. The default category selection
  is every category, sorted. A row is drawn when its category is selected and,
  if the stripped search text is not blank, its name contains that text,
  ignoring case.
- `Measure` (`distance.dfy`) is the distance panel. It offers the sorted distinct
  names, makes the selectors' initial picks, and looks up the first row with each
  name in the unfiltered data. It computes the squared Euclidean distance only
  when the two names differ.
- `Scene` (`scene.dfy`) is the figure. A `Figure` class holds the traces and the
  two axes' settings. `BuildFigure` runs the `for tip in sorted(...)` loop, then
  the `update_xaxes`/`update_yaxes` calls.
- Helper modules: `Seqs` (`seqs.dfy`) is order-preserving selection, the model of
  a pandas boolean mask. `Order` (`order.dfy`) is Python's `str` ordering and
  `sorted(col.unique())`. `Text` (`text.dfy`) is `str.strip()` and the
  case-insensitive substring test. `Wrappers` holds `Option`.
- `Scenarios` (`scenarios.dfy`) holds worked examples on small data sets.

I/O and foreign libraries are not modelled. The sheet fetch becomes the `rows`
parameter. The numeric coercion becomes the `parse` parameter. Widget values
become plain parameters. Plotly's figure becomes the `Figure` class.

## Model

| member | source | states |
|---|---|---|
| `Loader.ToPoint` | app.py:17-20 | a kept row keeps its category and name; its X and Y are the values its cells coerce to |
| `Loader.Coerce` | app.py:18-19 | coercion changes only X and Y, row by row, and keeps the row count |
| `Loader.DropMissing` | app.py:20 | `dropna(subset=["X", "Y"])` never adds rows, and a point is kept iff some coerced row has both coordinates and, with them, is that point |
| `Loader.LoadData` | app.py:14-21 | `load_data` never yields more rows than the sheet has; `LoadDataSingle`, `LoadDataAppend`, `LoadDataMembership` and `LoadDataKeepsAllIff` pin it down on every input |
| `Loader.LoadDataSingle` | app.py:18-20 | a row survives loading iff both X and Y parse, and then it becomes exactly its point |
| `Loader.LoadDataAppend` | app.py:18-20 | loading distributes over concatenation, so kept rows keep their relative order |
| `Loader.LoadDataMembership` | app.py:14-21 | a point is in the data iff some raw row whose X and Y both parse becomes that point |
| `Loader.LoadDataKeepsAllIff` | app.py:20 | no row is dropped iff every row has numeric X and Y |
| `Order.SortedUnique` | app.py:35 | `sorted(col.unique())` is strictly ascending and holds exactly the values of the column |
| `Order.AscendingUnique` | app.py:64 | two strictly ascending lists with the same values are equal |
| `Order.SortedUniqueOrderIndependent` | app.py:64 | the sorted distinct values depend only on which values occur, not on their first-occurrence order |
| `Text.Strip` | app.py:37 | the stripped text is a slice of the input with only whitespace cut off each end, and starts and ends with non-whitespace |
| `Text.StripBlankIff` | app.py:37-40 | the search is blank (no name filter applies) iff the typed text is all whitespace |
| `Text.StripIdempotent` | app.py:37 | stripping twice is stripping once |
| `Text.LowerChar` | app.py:41 | an upper-case ASCII letter becomes its lower-case partner (code point + 32); every other character is unchanged |
| `Text.Lower` | app.py:41 | lower-casing a name keeps its length, works character by character, and leaves no upper-case ASCII letter |
| `Text.Contains` | app.py:41 | `Contains(hay, needle)` holds iff `needle` occurs as a contiguous block at some index of `hay` |
| `Text.ContainsIgnoringCase` | app.py:41 | the `case=False` match holds iff the lower-cased needle occurs in the lower-cased text, and always holds when the needle occurs exactly |
| `Text.CaseInvariant` | app.py:41 | texts or searches that differ only in the case of ASCII letters give the same `case=False` match |
| `Filters.DefaultSelection` | app.py:35-36 | the default selection is strictly ascending and holds exactly the categories of the data |
| `Filters.InSelection` | app.py:39 | `isin(tip_filter)`: a row passes iff its category equals one of the selected entries |
| `Filters.NameMatches` | app.py:41 | a row with a missing name never matches (`na=False`); an exact occurrence always matches; rows whose names differ only in case match alike (`case=False`) |
| `Filters.Visible` | app.py:37-41 | the drawn rows are rows of the data and never more of them; `VisibleCount` and `VisibleMembership` characterise them exactly |
| `Filters.VisibleCount` | app.py:39-41 | each row occurs in the drawn rows as often as in the data if it passes both filters, otherwise not at all |
| `Filters.VisibleMembership` | app.py:39-41 | a row is drawn iff its category is selected and, with a non-blank search, its name contains the search ignoring case |
| `Filters.VisibleIsSubsequence` | app.py:39-41 | the drawn rows are a subsequence of the data (order preserved) |
| `Filters.VisibleIdempotent` | app.py:39-41 | filtering the drawn rows again with the same choices changes nothing |
| `Filters.EmptySelectionShowsNothing` | app.py:39 | with no category selected nothing is drawn, whatever the search |
| `Filters.DefaultSelectionShowsAll` | app.py:35-39 | with the default selection and a blank search every row is drawn |
| `Filters.MissingNameNeverMatches` | app.py:40-41 | with a non-blank search a row with a missing name is never drawn (`na=False`) |
| `Filters.SearchIsStripped` | app.py:37 | surrounding whitespace in the search box changes nothing |
| `Measure.PresentNames` | app.py:46 | the listed names are exactly the names present in some row of the unfiltered data |
| `Measure.NameChoices` | app.py:46 | the name choices are strictly ascending and are exactly the names present in the unfiltered data |
| `Measure.DefaultPicks` | app.py:47-48 | the first selector starts on the first name and the second on a name in the list; with no names there is no pick |
| `Measure.DefaultPicksDifferIff` | app.py:47-50 | the initial picks differ (so a distance is shown) iff there are at least two names, and are then the two smallest |
| `Measure.FirstWithName` | app.py:51-52 | the lookup returns the index of the first row with the name, or nothing iff no row has it |
| `Measure.SquaredDistance` | app.py:53 | the squared distance is non-negative |
| `Measure.SquaredDistanceSymmetric` | app.py:53 | the squared distance is symmetric |
| `Measure.SquaredDistanceZeroIff` | app.py:53 | the squared distance is zero iff the two points have the same coordinates |
| `Measure.Distance` | app.py:50-53 | no distance iff the two names are equal; otherwise the squared distance between the first rows with each name |
| `Measure.DistanceSymmetric` | app.py:50-53 | swapping the two picks gives the same result |
| `Measure.SameSpotDistinctNames` | app.py:50-53 | two differently named points at the same spot give distance 0, not "no distance" |
| `Measure.HiddenPointStillMeasured` | app.py:46-53 | when the first row with a name is hidden by the category filter, the distance is still the one to that hidden row, since lookup uses the unfiltered data |
| `Scene.ColorFor` | app.py:62-75 | "Oyuncu" is `#4C78FF`, "Hedef" is `#FF4B4B`, every other category has no colour |
| `Scene.MakeTrace` | app.py:65-80 | one pass of the loop: the trace is named after its category, holds exactly the drawn rows of that category, and has the chosen size and the category's colour |
| `Scene.Traces` | app.py:64-80 | there are no more traces than drawn rows, and no trace is empty; `TracesOnePerCategory`, `TraceHoldsItsCategory` and `TracesCoverRows` characterise them exactly |
| `Scene.TracesOnePerCategory` | app.py:64-71 | trace names are strictly ascending and are exactly the categories of the drawn rows |
| `Scene.TraceHoldsItsCategory` | app.py:65-77 | each trace is a subsequence of the drawn rows holding exactly the rows of its category, with their multiplicities |
| `Scene.TracesShareStyle` | app.py:72-76 | every trace has the chosen marker size and opacity (percent / 100), and its colour depends only on its category |
| `Scene.TracesCoverRows` | app.py:64-71 | together the traces hold every drawn row exactly once |
| `Scene.DefaultViewDrawsEverything` | app.py:35-71 | with the default selection and a blank search the traces hold every row of the data exactly once |
| `Scene.NoRowsNoTraces` | app.py:64 | with no drawn rows there are no traces |
| `Scene.Figure.constructor` | app.py:60 | a new figure has no traces and no axis settings |
| `Scene.Figure.AddTrace` | app.py:66-80 | appends one trace and changes nothing else |
| `Scene.Figure.UpdateXAxes` | app.py:99-108 | the given x-axis properties replace the current ones; traces and y axis unchanged |
| `Scene.Figure.UpdateYAxes` | app.py:110-121 | the given y-axis properties replace the current ones; traces and x axis unchanged |
| `Scene.BuildFigure` | app.py:60-121 | the figure's traces are `Traces` of the drawn rows; both axes are fixed to [-200, 200] whatever `resetView` is, with zoom allowed, grid and tick step as chosen, and the y axis locked 1:1 to x |
| `Scenarios.SampleDistance` | app.py:50-53 | A at (0, 0) and B at (3, 4) are at squared distance 25 |
| `Scenarios.SampleOnlyTargets` | app.py:39-80 | selecting only "Hedef" yields one red trace holding the one target point |
| `Scenarios.SearchIgnoresCase` | app.py:40-41 | with all three categories selected, the search "b" keeps the rows named "Ab" and "ab", in order, and drops the one named "C" |

## Left out

- Fetching the sheet (`pd.read_csv`, app.py:15) is not modelled. Neither is the 30-second cache or the refresh button's cache clear (app.py:13, 24-25). The raw rows are a parameter.
- The positional slice `iloc[:, 10:14]` and the column renaming (app.py:16-17) are not modelled. Each raw row is already the four-field window.
- Loader.Coerce: `pd.to_numeric(..., errors="coerce")` is the `parse` parameter. Its result is an integer, because Travian coordinates are integers. A non-integral number is not modelled, and neither is an infinity, which pandas would keep since `dropna` drops only NaN.
- A missing category cell is not modelled. Categories are always strings.
- Measure.NameChoices: a missing name is simply left out of the choices. In the source, a missing name next to present names makes `sorted` at app.py:46 raise a `TypeError`. When every name is missing, the source lists the one missing value as the only choice. Both selectors then pick it, since the second index is `min(1, 0) = 0` (app.py:47-48). Because a missing value never equals itself, app.py:50 goes on to the lookup, and `.iloc[0]` on no rows raises an `IndexError` (app.py:51). A non-blank search on such a column fails even earlier, at app.py:41, because `.str` does not apply to an all-missing column. The model instead offers no choices, shows no distance, and draws no row for a non-blank search.
- Text.Contains: `str.contains` treats the search text as a regular expression (its default is `regex=True`). The model matches it as a plain substring. Regex metacharacters and invalid patterns therefore behave differently.
- Text.LowerChar: case-insensitivity covers ASCII letters only. Full Unicode case folding, such as the Turkish `İ`, is not modelled.
- Widgets (app.py:23-57) become plain parameters. Their domains are not enforced: tick step in {5, 10, 20, 25, 50}, marker size 4..20, opacity 30..100 %.
- Measure.DefaultPicks: a selectbox with no options is modelled as "no pick". Streamlit's own handling of that case is not modelled.
- Measure.Distance: it returns the squared distance. `np.sqrt` and the `:.2f` message (app.py:53-54) are not modelled.
- Measure.Distance: both names must occur in the data. In the source they always do, because they are chosen from the name list, and `.iloc[0]` would raise otherwise.
- Layout and styling are not modelled (app.py:83-90 and 99-134): title, template, height, `dragmode`, margins, legend title, grid and zero-line colours, `zeroline`, marker `mode`, hover template, and the `plotly_chart` config (scroll zoom, toolbar, double-click).
- Scene.Trace: a trace stores its rows. The Plotly `x`, `y` and `text` columns are those rows' X, Y and name.
- `reset_view` (app.py:57, 95-97) has no effect: the branch only does `pass`. The browser's zoom state is not tracked by the script, so it is not modelled.
- A load with zero usable rows is not an error: the empty data set flows through. A name absent from the data cannot be chosen, so no "unavailable" distance is modelled.
