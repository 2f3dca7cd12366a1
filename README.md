# PDB statistics dashboard: the data pipeline

A model of the data path of the PDB Statistics Dashboard (`streamlit_app.py`). The dashboard
asks the RCSB search service, once per experimental method in a fixed registry, for the number of
entries released per year. The service answers with year buckets, each holding technique buckets.
The dashboard flattens these into a table of `(Year, Technique, Technique Full, Count)` rows. It
derives the earliest and latest year, filters the table by the selected techniques and year range,
and shows for each selected technique its count in the last year together with the percentage
change from the first year.

Modules:

- `Wrappers` (`wrappers.dfy`): `Option` and `Result`.
- `PyInt` (`pyint.dfy`): Python's `int()` on a year label, and `str()`, its inverse.
- `Registry` (`registry.dfy`): `EXPERIMENTAL_METHODS` and `display_mapping`.
- `Query` (`query.dfy`): a JSON value type with path lookup, and the query dictionary built for one method.
- `Dataset` (`dataset.dfy`): the row type, the dashboard's filter, the boundary-year sums, and min/max year.
- `Flatten` (`flatten.dfy`): the response as a datatype, its flattening as specification functions,
  and `ProcessData`, the three nested loops of `process_data`, proved equal to them.
- `Metrics` (`metrics.dfy`): the growth value and the metric-card loop.
- `Pipeline` (`pipeline.dfy`): `get_pdb_data`, as written and corrected (see Findings).

Modelling choices:

- The HTTP call is a parameter `fetch: string -> Option<Response>`. `None` stands for a non-200 answer.
- An absent key read with `.get(key, [])` is `None` in the response datatypes and behaves as an empty list.
- The exceptions `process_data` can raise are `Err` values rather than preconditions. They are
  `IndexOutOfRange` (`[0]` on an empty or absent `facets` list) and `InvalidLiteral` (`int()` on a
  label that is not an integer).
- A DataFrame is a `seq<Record>`. The year bounds of an empty table are `None`. This is the corrected
  behaviour; as written, the empty frame has no `Year` column and line 105 raises (see Findings).
- Growth is an exact fraction `Percent(numerator, denominator)` or `NotAvailable`. It is not a float.

Behaviour of the code worth knowing:

- A missing top-level `facets` key contributes nothing (streamlit_app.py:84). An empty top-level
  `facets` list, or a year bucket whose `facets` is empty or absent, raises IndexError
  (streamlit_app.py:87, 89). The model returns `Err(IndexOutOfRange)` for these.
- Unknown technique labels pass through unchanged (streamlit_app.py:95), and so does `Registry.FullName`.

## Model

| member | source | states |
|---|---|---|
| `PyInt.ParseInt` | streamlit_app.py:88 | `int(label)` succeeds exactly on a non-empty digit string, or on `+` or `-` followed by a non-empty digit string; anything else raises. The value is the decimal value of the digits, negated after `-`. |
| `PyInt.ParseIntToString` | streamlit_app.py:88 | Parsing the decimal text of any integer (`str(n)`) gives `n` back. |
| `PyInt.ParseYearLabel` | streamlit_app.py:88 | The label "2020" parses to the year 2020. |
| `Registry.MappingCoversRegistry` | streamlit_app.py:12-24 | The display mapping's keys are exactly the six registry methods. |
| `Registry.MethodsDistinct` | streamlit_app.py:12-14 | The registry lists each method once. |
| `Registry.FullName` | streamlit_app.py:17-24 | A registry code maps to its display name, which differs from the code. Any other label maps to itself. |
| `Registry.FullNamesDistinct` | streamlit_app.py:17-24 | Distinct registry codes have distinct display names, so each legend entry names one method. |
| `Registry.FullNameIdempotent` | streamlit_app.py:95 | A display name is never itself a code, so `display_mapping.get` applied twice equals applying it once. |
| `Query.BuildQuery` | streamlit_app.py:28-65 | The query dictionary for one method, as a JSON value; its shape is stated by `Query.QueryShape`. |
| `Query.QueryShape` | streamlit_app.py:28-65 | Every method's query asks for zero rows. Its outer facet is a `date_histogram` with interval `year`, and its inner facet is a `terms` facet, with `min_interval_population` 1 at both levels. It returns entries. Its terminal filter is an `exact_match` on `rcsb_entry_info.experimental_method` whose `value` is the method. |
| `Query.BuildQueryInjective` | streamlit_app.py:38 | Two methods with the same query are the same method. |
| `Dataset.Keep` | streamlit_app.py:139-143 | The row condition of the mask: technique selected, and `from_year <= Year <= to_year`. |
| `Dataset.Filter` | streamlit_app.py:139-143 | The result holds exactly the rows whose technique is selected and whose year lies in `[from_year, to_year]`: every kept row matches, and every matching row is kept. |
| `Dataset.FilterIsSubsequence` | streamlit_app.py:139-143 | The filter keeps rows in their original order and adds none: the result is a subsequence of the table. |
| `Dataset.FilterConcat` | streamlit_app.py:139-143 | Filtering a concatenation is the concatenation of the filtered parts, so the mask preserves order and multiplicity. |
| `Dataset.FilterKeepsAll` | streamlit_app.py:139-143 | A table all of whose rows match passes through unchanged. |
| `Dataset.FilterIdempotent` | streamlit_app.py:139-143 | Filtering twice with the same selection equals filtering once. |
| `Dataset.YearRows` | streamlit_app.py:161-162 | `df[df['Year'] == year]` holds exactly the table's rows of that year. |
| `Dataset.TechniqueTotal` | streamlit_app.py:172-173 | The summed `Count` of one technique's rows; its properties are the lemmas below. |
| `Dataset.TechniqueTotalNonNegative` | streamlit_app.py:172-173 | A technique's summed count is non-negative when every row's count is. |
| `Dataset.BoundaryCount` | streamlit_app.py:161-173 | The summed `Count` of the rows of one year and technique; its properties are the lemmas below. |
| `Dataset.BoundaryCountNonNegative` | streamlit_app.py:161-173 | A boundary count is non-negative when every row's count is. |
| `Dataset.TwoStepBoundaryCount` | streamlit_app.py:172-173 | Selecting the year's rows first and then summing one technique's counts gives that technique's summed count at that year. |
| `Dataset.BoundaryCountConcat` | streamlit_app.py:172-173 | Counts are summed over duplicate (year, technique) rows, never overwritten: the count of a concatenation is the sum of the parts' counts. |
| `Dataset.BoundaryCountAbsent` | streamlit_app.py:172-173 | With no row for the year and technique, the count is 0. |
| `Dataset.BoundaryCountSingle` | streamlit_app.py:172-173 | With exactly one matching row, the count is that row's `Count`. |
| `Dataset.BoundaryCountOfFilter` | streamlit_app.py:139-162 | On the filtered table, the count is the whole table's count when the technique is selected and the year is in range, and 0 otherwise. |
| `Dataset.MinYear` | streamlit_app.py:105 | It is absent exactly for an empty table. Otherwise it is some row's year and no row's year is smaller. |
| `Dataset.MaxYear` | streamlit_app.py:105 | It is absent exactly for an empty table. Otherwise it is some row's year and no row's year is larger. |
| `Dataset.MinYearAtMostMaxYear` | streamlit_app.py:105 | The year range of a non-empty table is not empty. |
| `Flatten.Fetched` | streamlit_app.py:82-83 | One fetch per registry method, in registry order: element `i` is the fetch of `Methods[i]`. |
| `Flatten.BucketRecords` | streamlit_app.py:89-97 | One row per inner bucket, in bucket order. Each row has the year, the bucket's label as `Technique`, that label's display name and the bucket's population as `Count`. |
| `Flatten.MakeRecord` | streamlit_app.py:90-96 | The row for one inner bucket has the year, the bucket's label as `Technique`, its display name and its population as `Count`. |
| `Flatten.YearRecords` | streamlit_app.py:88-97 | A year bucket raises ValueError when its label is not an integer, then IndexError exactly when its `facets` list is empty or absent. Otherwise it succeeds, with one row per bucket of the first inner facet, in order. Row `i` carries bucket `i`'s label as `Technique` and its population as `Count`, and every row has the parsed year. |
| `Flatten.ResponseRecords` | streamlit_app.py:83-87 | A failed fetch or a body without `facets` contributes no rows; an empty `facets` list raises IndexError. |
| `Flatten.FlattenAll` | streamlit_app.py:82-97 | The rows of all responses in fetch order; its properties are stated by the lemmas below. |
| `Flatten.CollectConcat` | streamlit_app.py:82-97 | The rows of consecutive parts are concatenated in nesting order. An exception in an earlier part stops the later ones. |
| `Flatten.ErrorStops` | streamlit_app.py:82-97 | Once any processed prefix raises, the whole flattening raises that same exception. |
| `Flatten.FlattenAllLength` | streamlit_app.py:82-97 | When flattening succeeds, the number of rows is the total number of inner buckets across all methods and year buckets. |
| `Flatten.MissingResponseContributesNothing` | streamlit_app.py:83-85 | A method whose fetch failed or whose body lacks `facets` contributes no rows, and the other methods' rows are produced unchanged. |
| `Flatten.EmptyYearBuckets` | streamlit_app.py:87 | An empty or absent list of year buckets contributes no rows. |
| `Flatten.EmptyMethodBuckets` | streamlit_app.py:89 | A year whose first inner facet has an empty or absent bucket list contributes no rows. |
| `Flatten.MissingInnerFacet` | streamlit_app.py:89 | A year bucket whose inner `facets` is empty or absent raises IndexError. |
| `Flatten.FlattenAllWellNamed` | streamlit_app.py:95 | Every row's `Technique Full` is the display name of its `Technique`. |
| `Flatten.ExampleFlattens` | streamlit_app.py:87-97 | The response with year "2020" holding one bucket ("X-ray", 150) flattens to exactly the row (2020, "X-ray", "X-ray Crystallography", 150). |
| `Flatten.ProcessData` | streamlit_app.py:79-99 | The three nested loops over methods, year buckets and inner buckets produce exactly the specified flattening of the fetched responses, or raise its first exception. |
| `Metrics.GrowthOf` | streamlit_app.py:175-180 | Growth is unavailable exactly when the first count is 0, so there is never a division by zero. Otherwise it equals `(last - first) / first * 100` over the reals; it is positive exactly when the count rose and zero exactly when it is unchanged. |
| `Metrics.DeltaMetrics` | streamlit_app.py:161-188 | One card per selected technique, in selection order. Each card has the caption "<technique> Structures", the count at `to_year` as value, the growth from `from_year` to `to_year`, colouring off exactly when growth is unavailable, and column `i % 3`. |
| `Metrics.MetricOfFilteredTable` | streamlit_app.py:139-173 | When `from_year <= to_year`, a selected technique's boundary counts on the filtered table are its counts in the whole table. An unselected technique's are 0. |
| `Pipeline.YearRangeAsWritten` | streamlit_app.py:104-105 | As written: loading raises on the missing `Year` column exactly when flattening gave no rows. An exception of the flattening loop is passed on, and a non-empty table loads as in the corrected version. |
| `Pipeline.DataAvailable` | streamlit_app.py:119 | The page draws the dashboard exactly for a non-empty table. |
| `Pipeline.NoDataRaisesAsWritten` | streamlit_app.py:104-105 | As written, when every fetch fails, reading the `Year` column of the empty table raises, so the page never shows "No data available". |
| `Pipeline.YearRange` | streamlit_app.py:102-107 | Corrected: an exception from flattening passes through unchanged as `FlattenFailed`. The year bounds are absent exactly for an empty table. For a non-empty table, min <= max, every row's year lies between them, and some row has each bound as its year, so they are the actual earliest and latest years. |
| `Pipeline.NoDataReported` | streamlit_app.py:119-120 | Corrected: when every fetch fails, loading yields an empty table without bounds, and the page takes its "no data" branch. |
| `Pipeline.GetPdbData` | streamlit_app.py:101-105 | Corrected load: it fetches and flattens every method, then derives the bounds as `YearRange` specifies, so an empty table loads without bounds rather than raising. |
| `Pipeline.ExampleEndToEnd` | streamlit_app.py:79-99 | If only X-ray's fetch returns the example response and all other fetches fail, the table is exactly the one example row. |

## Findings

| source | as written | input that shows it | evidently intended | confidence | as-written member | corrected member |
|---|---|---|---|---|---|---|
| streamlit_app.py:105 | `pdb_df['Year'].min()` is evaluated on the frame built by `pd.DataFrame(records)`. When `records` is empty that frame has no columns, so the lookup raises KeyError. The `pdb_df.empty` check at line 119 is therefore never reached with an empty frame. | every fetch returns a non-200 status (or no `facets`), so `records == []` | an empty table with no year bounds, so that line 119 reports "No data available. Please try again later." | high; not executed | `Pipeline.YearRangeAsWritten`, `Pipeline.NoDataRaisesAsWritten` | `Pipeline.YearRange`, `Pipeline.NoDataReported` |

## Left out

- HTTP: `requests.get`, the status-code check and the `st.error` report (streamlit_app.py:67-77) are I/O. The model takes the fetch as a parameter; `None` stands for a failed fetch.
- URL encoding of the query and the `str(query).replace("'", '"')` quoting (streamlit_app.py:68) are string plumbing around Python's repr. The model keeps the query as a JSON value.
- `@st.cache_data` (streamlit_app.py:101) memoises the loaded table for the process lifetime. It is framework caching and is not modelled.
- All Streamlit widgets, layout and HTML (streamlit_app.py:7-10, 111-136, 145-159, 164-166, 183-195) and the Altair chart are presentation. This includes the slider's defaults and the sorted list of unique techniques offered by the multiselect (line 129). The `st.metric` call (183-188) is kept as a `Metric` value with caption, value, growth, colouring and column; its rendering is not.
- Number formatting: `:,.2f` for the percentage and `:,` for the count (streamlit_app.py:180, 185). Growth is an exact fraction, and the value is the integer count.
- `delta_value = 0` (streamlit_app.py:178) is assigned but never used.
- PyInt.ParseInt: Python's `int()` also accepts surrounding whitespace, `_` between digits and non-ASCII decimal digits. The model rejects these labels. The service's year labels are plain four-digit years.
- Flatten.Response: the keys read with `[...]` (`label`, `population`) are assumed present and well typed. Their KeyError and TypeError paths, and a response body that is not a JSON object, are not modelled.
- Flatten.ProcessData: only the first exception is modelled. The partial table and the error messages already shown when it is raised are not.
