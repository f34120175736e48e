# Wine-export dashboard: ingestion and views

This project models the data core of a Streamlit dashboard that presents
Brazilian wine exports. The dashboard reads a wide export table with one row
per destination country. For each year the table has two columns. The first
is labelled by the bare year (`2010`) and holds kilograms. The second is
labelled with a `.1` marker (`2010.1`) and holds US$.

The ingestion (`main.py:15-55`) works in these steps:

- strip the country names;
- split the columns into a quantity family and a value family;
- melt both families into long form, removing the marker from the value labels;
- join the two on (country, year);
- convert the year to a number;
- keep the rows with positive kg and US$;
- keep the rows whose year is at least the latest year minus 15, which is
  16 years counting the latest;
- copy kg into a litres column.

The views (`main.py:76-163`) are functions of that tidy table and of the
sidebar selection, which is a year range plus a country or `"Todos"`:

- the country selector;
- the year/country filter;
- the top-10 countries by US$ over the year window;
- each top-10 country's percentage of the filtered US$ total;
- the top-10 by US$ with litres, melted to two rows per country;
- the per-year sums of the filtered rows;
- the display table with a constant `"Brasil"` origin column.

Modules:

- `Text` (`text.dfy`): Python's `str.strip`, `isnumeric`, the `".1" in s` test, `s.replace(".1", "")`, decimal digit parsing and Python's string order.
- `Sequences` (`sequences.dfy`): the sequence meanings of the pandas operations used. These are boolean-mask filtering, `sorted(unique)`/`groupby` key order, `sort_values(ascending=False)`, column sums and group sums.
- `Ingestion` (`ingestion.dfy`): from the parsed table (labels plus rows) to the tidy table.
- `Views` (`views.dfy`): the filters and the views.

`main.py` edits several frames in place: line 19 overwrites the country
column with its stripped form, line 36 renames the value columns, line 55
adds the litres column, line 77 inserts `"Todos"` into the country list and
line 162 inserts the origin column. No other frame sees any of these edits
before it happens, so each is modelled as a pure function that produces
the new frame from the old one.

Behaviour of the code that the model keeps:

- **Failed conversions.** `pd.to_numeric` is called without `errors=`, so a cell it cannot convert raises instead of being dropped. The model proves that the year conversion at `main.py:45` cannot fail (`Ingestion.MergedTable`).
- **Tie order.** `sort_values` at `main.py:95`, `103` and `116` uses its default sort, which is not stable. The contracts that name rows by position require strictly different keys, and `Sequences.DescendingKeysAgree` proves that every non-increasing order of the same rows has the same key column. The one contract that compares two sorts position by position, `Views.TopTotalsMatchRanking`, is discussed under "## Left out".
- **Zero denominator.** When the filtered US$ total is zero and some country is ranked, `main.py:101` divides by zero and pandas gives non-finite percentages. The model returns `None` for that case.
- **Share asymmetry.** The share numerator at `main.py:101` is a total over the year window for every country, while the denominator is the total of the rows that pass the country filter. The model keeps this and proves its consequence (`Views.SelectedCountryShare`).

## Model

| member | source | states |
|---|---|---|
| Text.TrimLeft | main.py:19 | the result is a suffix of the name, only whitespace is dropped before it, and it does not start with whitespace |
| Text.TrimRight | main.py:19 | the result is a prefix of the name, only whitespace is dropped after it, and it does not end with whitespace |
| Text.Strip | main.py:19 | the stripped name is never longer than the original and neither starts nor ends with whitespace |
| Text.StripFramed | main.py:19 | the stripped name is a slice of the original, and only whitespace is dropped before and after it |
| Text.StripIgnoresPadding | main.py:19 | two names that differ only by surrounding whitespace strip to the same name |
| Text.StripIdempotent | main.py:19 | stripping a stripped name changes nothing |
| Text.StripMarker | main.py:36 | removing ".1" never lengthens a label and leaves a label without ".1" unchanged |
| Text.ValueLabelOfYear | main.py:22-36 | a numeric year label never contains ".1"; the year followed by ".1" contains it, is not numeric, and turns back into the year when ".1" is removed |
| Text.IsNumeric | main.py:22 | a label made of ASCII digits only; its contract is stated by `Text.ValueLabelOfYear` and `Ingestion.Positions` |
| Text.HasMarker | main.py:26 | a label containing ".1"; its contract is stated by `Text.ValueLabelOfYear` and `Text.StripMarker` |
| Text.ParseDigits | main.py:45 | the number a digit label spells; its contract is stated by `Text.ParseDecimal` |
| Text.ParseDecimal | main.py:45 | converting the decimal spelling of a year gives that year back |
| Text.StrLtIrreflexive | main.py:76 | no string sorts before itself |
| Text.StrLtTransitive | main.py:76 | Python's string order is transitive |
| Text.StrLtTotal | main.py:76 | any two different strings are ordered one way or the other |
| Sequences.SubsequenceTransitive | main.py:48-52 | a filter of a filter keeps the order of the original |
| Sequences.SortedUnique | main.py:76 | `sorted(unique)`; its contract is stated by `Sequences.SortedUniqueSpec` |
| Sequences.SortedUniqueSpec | main.py:76 | `sorted(unique)` is strictly ascending and holds exactly the input's elements |
| Sequences.SortDesc | main.py:95 | `sort_values(ascending=False)`; its contract is stated by `Sequences.SortDescSpec`, `Sequences.SortDescOfDescending` and `Sequences.DescendingKeysAgree` |
| Sequences.SortDescSpec | main.py:95 | `sort_values(ascending=False)` gives a non-increasing permutation of its input |
| Sequences.SortDescOfDescending | main.py:103 | an input whose keys strictly decrease comes back unchanged, since with no ties only one non-increasing order exists |
| Sequences.DescendingKeysAgree | main.py:103 | any two non-increasing orders of the same rows have the same length and the same key at every position, whatever order the ties take |
| Sequences.SortDescKeepsDistinct | main.py:95 | elements with pairwise distinct names keep distinct names after sorting |
| Sequences.SortDescMap | main.py:116 | sorting a projection equals projecting the sequence sorted by the same key |
| Sequences.Select | main.py:83 | the filter keeps every element whose key matches as often as it occurs, drops all others, and keeps their order |
| Sequences.Total | main.py:94 | the `sum()` of a column; its contract is stated by `Sequences.GroupsCoverTotal`, `Sequences.TotalSortDesc` and `Sequences.TotalPrefix` |
| Sequences.GroupsCoverTotal | main.py:94 | group sums over distinct keys that cover every row add up to the column's sum |
| Sequences.TotalSortDesc | main.py:95 | reordering rows keeps the column's sum |
| Sequences.TotalPrefix | main.py:95 | with no negative amounts, the `head` of a sequence sums to at most the whole |
| Ingestion.StripNames | main.py:19 | every country name is replaced by its stripped form; the labels and figures are untouched |
| Ingestion.QuantityColumns | main.py:22 | the numeric labels; its contract is stated by `Ingestion.Positions` and `Ingestion.ColumnFamilies` |
| Ingestion.ValueColumns | main.py:26 | the labels containing ".1"; its contract is stated by `Ingestion.Positions` and `Ingestion.ColumnFamilies` |
| Ingestion.Positions | main.py:22 | the selected columns are exactly those whose labels pass the test, in header order |
| Ingestion.ColumnFamilies | main.py:22-36 | no column is both a quantity and a value column; the value column of a year is selected and melts under that year's label |
| Ingestion.Melt | main.py:30-39 | the melt has one row per (row, column) pair |
| Ingestion.QuantityMelt | main.py:22-32 | the kg family melted; its contract is stated by `Ingestion.MeltSound` and `Ingestion.MeltComplete` |
| Ingestion.ValueMelt | main.py:26-39 | the US$ family melted under the labels without ".1"; its contract is stated by `Ingestion.MeltSound`, `Ingestion.MeltComplete` and `Ingestion.ColumnFamilies` |
| Ingestion.MeltSound | main.py:30-39 | every melted row is one row's figure in one selected column, under that column's name |
| Ingestion.MeltComplete | main.py:30-39 | every row's figure in every selected column appears in the melt |
| Ingestion.Merge | main.py:42 | the inner join on (country, year); its contract is stated by `Ingestion.MergeSound`, `Ingestion.MergeComplete` and `Ingestion.MergeMultiplicity` |
| Ingestion.MergeSound | main.py:42 | every joined row pairs a quantity row and a value row with the same (country, year) |
| Ingestion.MergeComplete | main.py:42 | every quantity row and value row with the same (country, year) are joined |
| Ingestion.MergeMultiplicity | main.py:42 | a key occurring a times among quantity rows and b times among value rows occurs a·b times in the join |
| Ingestion.MergedTable | main.py:19-45 | every joined year label is numeric, so converting the year column never fails |
| Ingestion.Typed | main.py:45 | the year column converted to numbers; `Ingestion.MergedTable` proves its precondition always holds and `Ingestion.PositiveRowsSound` states what it yields |
| Ingestion.MergedTableSound | main.py:19-42 | every joined row carries a numeric column's kg and the US$ of the ".1" column of the same year, for rows whose stripped names agree |
| Ingestion.MergedTableComplete | main.py:19-42 | every such pair of figures in the raw table is joined |
| Ingestion.KeepPositive | main.py:48 | exactly the rows with positive kg and US$ are kept, in order |
| Ingestion.KeepPositiveMember | main.py:48 | a row is kept if and only if it is present with positive kg and US$ |
| Ingestion.MaxYear | main.py:51 | the latest year is the year of some row and no row is later |
| Ingestion.FromYear | main.py:52 | exactly the rows from the given year on are kept, in order |
| Ingestion.LastYears | main.py:51-52 | the 15-year window; its contract is stated by `Ingestion.LastYearsMember` |
| Ingestion.LastYearsMember | main.py:51-52 | a row is in the window if and only if it is present and at most 15 years older than the latest year |
| Ingestion.WithLitres | main.py:55 | the litres column added; its contract is stated by `Ingestion.WithLitresMember` |
| Ingestion.WithLitresMember | main.py:55 | a record is in the table if and only if its row is present and its litres equal its kg |
| Ingestion.PositiveRows | main.py:19-48 | the typed join with positive kg and US$; its contract is stated by `Ingestion.PositiveRowsSound` and `Ingestion.PositiveRowsComplete` |
| Ingestion.PositiveRowsSound | main.py:19-48 | every positive row is a pair of positive figures observed in the raw table |
| Ingestion.PositiveRowsComplete | main.py:19-48 | every observed pair of positive figures is a positive row |
| Ingestion.Normalize | main.py:15-55 | the whole ingestion; its contract is stated by `Ingestion.NormalizeExact`, `Ingestion.NormalizedRecord` and `Ingestion.NormalizedName` |
| Ingestion.NormalizeExact | main.py:15-55 | a record is in the tidy table if and only if its figures are positive and observed, its litres equal its kg, and its year is within 15 years of the latest positive year |
| Ingestion.NormalizedRecord | main.py:48-55 | every tidy record has positive kg and US$, litres equal to kg, and a year between the latest year minus 15 and the latest year |
| Ingestion.NormalizedName | main.py:19 | every tidy record's country is a raw row's stripped name, without surrounding whitespace |
| Ingestion.LatestYear | main.py:51 | the latest year of the window is the latest year of an observed positive pair, and no observed positive pair is later |
| Ingestion.NormalizeKeepsOrder | main.py:48-52 | the tidy table keeps the join's row order |
| Views.NormalizeIsTidy | main.py:48-55 | every record of the tidy table has positive kg and US$ and litres equal to kg |
| Views.Window | main.py:81 | exactly the records within the year range are kept, each as often as it occurs, in order |
| Views.Filtered | main.py:81-83 | the year and country filter; its contract is stated by `Views.FilteredExact` |
| Views.FilteredExact | main.py:81-83 | a record is shown as often as it occurs when its year is in range and its country is selected or "Todos" is chosen, and not at all otherwise; order is kept |
| Views.CountryOptions | main.py:76-77 | the country selector; its contract is stated by `Views.CountryOptionsSpec` |
| Views.CountryOptionsSpec | main.py:76-77 | the selector is "Todos" followed by every country of the table once, in ascending order |
| Views.ValueByCountry | main.py:94 | the US$ sum per country of the year window; its contract is stated by `Views.ValueByCountrySpec` and `Views.ValueByCountrySum` |
| Views.ValueByCountrySpec | main.py:94 | one row per country of the window, in ascending country order, each with that country's US$ sum |
| Views.ValueByCountrySum | main.py:94 | the country sums add up to the window's US$ total |
| Views.TopByValue | main.py:94-95 | the top-10 ranking; its contract is stated by `Views.TopByValueSpec`, `Views.TopByValueLeftOut` and `Views.TopWithinWindowTotal` |
| Views.TopByValueSpec | main.py:94-95 | the ranking has at most 10 distinct countries of the window, non-increasing by US$, each with its true window total |
| Views.TopByValueLeftOut | main.py:94-95 | a country of the window is either ranked, or 10 are ranked and its total is at most the smallest ranked one |
| Views.TopWithinWindowTotal | main.py:94-95 | the ranked totals add up to at most the window's US$ total, and to exactly it when the window has at most 10 countries |
| Views.Shares | main.py:101-103 | the percentage of each ranked country; its contract is stated by `Views.SharesSpec`, `Views.ShareEquation`, `Views.SharesFollowRanking` and `Views.SelectedCountryShare` |
| Views.SharesSpec | main.py:101-103 | percentages are undefined exactly when a country is ranked and the filtered total is zero; otherwise one share per ranked country, non-increasing |
| Views.ShareEquation | main.py:101 | a share times the filtered total equals 100 times the country's window total |
| Views.SharesFollowRanking | main.py:101-103 | on a tidy table with a nonzero filtered total there is one share per ranked country, and the k-th share's percentage is the k-th ranked country's share, however ties are ordered |
| Views.SharesFollowRankingDistinct | main.py:95-103 | when the ranked totals are pairwise different, the shares list the countries in the ranking's order |
| Views.SelectedCountryShare | main.py:101 | with one country selected and ranked, the denominator is that country's own total, so its share is exactly 100; every other ranked country's share is present and positive, so with two or more ranked countries the percentages add up to more than 100 |
| Views.TotalsByCountry | main.py:110-113 | the US$ and litres sums per country; its contract is stated by `Views.TopTotalsMatchRanking` and `Views.TopTotalsLitres` |
| Views.TopTotals | main.py:110-116 | the top 10 with litres; its contract is stated by `Views.TopTotalsMatchRanking` and `Views.TopTotalsLitres` |
| Views.TopTotalsMatchRanking | main.py:110-116 | the combined ranking lists the same countries, in the same order, with the same US$ totals as the top-10 ranking |
| Views.TopTotalsLitres | main.py:110-113 | each country of the combined ranking carries its litres total over the window |
| Views.MeltMetrics | main.py:119 | the melt into a US$ row and a litres row; its contract is stated by `Views.MeltMetricsComplete` and `Views.MeltMetricsSound` |
| Views.CombinedView | main.py:110-119 | the combined view; its contract is stated by `Views.CombinedViewPairs` |
| Views.MeltMetricsComplete | main.py:119 | the melt holds the US$ row and the litres row of every ranked country, twice as many rows as countries |
| Views.MeltMetricsSound | main.py:119 | every melted row is a ranked country's US$ row or litres row |
| Views.CombinedViewPairs | main.py:110-119 | each ranked country's name is on exactly two rows of the combined view |
| Views.ByYear | main.py:139 | the US$ and litres sums per year; its contract is stated by `Views.ByYearSpec` and `Views.ByYearSum` |
| Views.YearView | main.py:139 | the per-year series of the filtered records; its contract is stated by `Views.ByYearSpec` and `Views.ByYearSum` |
| Views.ByYearSpec | main.py:139 | one row per year of the filtered records, strictly ascending, each with that year's US$ and litres sums |
| Views.ByYearSum | main.py:139 | the per-year rows add up to the filtered US$ and litres totals |
| Views.DisplayTable | main.py:157-163 | the displayed table; its contract is stated by `Views.DisplayRoundTrip` |
| Views.DisplayRoundTrip | main.py:157-163 | every displayed row has origin "Brasil", and the filtered records can be read back from the display in order |
| Views.EmptyWindow | main.py:81-163 | a year range holding no record gives an empty ranking, no shares, and empty combined, per-year and display views |

## Left out

- The Streamlit page is not modelled: layout, titles, sidebar widgets, `st.dataframe` and the closing text (`main.py:1-12`, `62-65`, `78`, `85-91`, the `st.dataframe` call of `163`, and `165` on). The selection is a parameter.
- The Plotly charts are not modelled (`main.py:96-98`, `104-107`, `122-135`, `140-154`). They only draw the computed frames.
- Reading the CSV file and the `FileNotFoundError` branch (`main.py:16`, `57-59`) are file I/O. The model starts from the parsed header and rows. Labels are taken as pandas presents them, with duplicate headers already renamed.
- The slider bounds (`main.py:66-73`) are UI and are not modelled. Any year range is accepted.
- An empty tidy table: `int(df_final['Ano'].min())` at `main.py:66` raises on it, so the program never reaches the views with one. The model's views accept an empty table and give empty results.
- Text.IsNumeric: covers ASCII digits only. Python's `isnumeric` also accepts other Unicode numerals.
- Ingestion.RawRow: the figures are integers, and every sum is an unbounded `int`. pandas keeps these columns as int64, and the `sum()` calls at `main.py:94`, `110-113` and `139` wrap around silently past 2^63-1. No contract here models that wrap-around. The conversion of kg and US$ at `main.py:46-47` is not modelled, and neither are missing, fractional or non-numeric cells.
- Views.Shares: percentages are exact reals, not 64-bit floats. A zero filtered total with ranked countries returns `None`, standing for the infinite or undefined values pandas produces.
- Sequences.SortDesc: a deterministic insertion sort. How pandas orders equal keys is not modelled. The contracts that name rows by position (`Sequences.SortDescOfDescending`, `Views.SharesFollowRankingDistinct`) require strictly different keys, and `Sequences.DescendingKeysAgree` shows that the key column is the same under every order of ties.
- Views.TopTotalsMatchRanking: holds because both rankings use the same sort. In pandas it holds because `main.py:95` and `main.py:116` sort the same values with the same algorithm.
- Ingestion.Merge: models the inner-join row order of pandas 2.2 and later, where each left row is followed by its matching right rows. Earlier pandas grouped left rows with equal keys together. The two orders differ only when two raw names strip to the same country, and then only in row order.
