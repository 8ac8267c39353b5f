# Waste Connect ledger, in Dafny

Waste Connect is a small Streamlit dashboard that tracks dry and wet waste
collected in twenty Chennai areas. Its only stateful logic is the **waste
ledger**: a table with one row per date and, for every area, a column
`"<Area> Dry Waste"` and a column `"<Area> Wet Waste"`, holding tons. This
project models that ledger as pure functions over an immutable table and
proves what loading, recording and querying do to it. It also models the
static product-suggestion table.

Modules:

- `Wrappers` (`wrappers.dfy`): the `Option` type. In the ledger, `None` is a NaN cell.
- `Text` (`text.dfy`): Python's substring test and `s.replace(p, "")`. It proves
  that deleting a suffix that cannot overlap itself gives the prefix back.
- `Columns` (`columns.dfy`): the area list, column names, the skeleton column
  list, the dry/wet column filters, and how the query page recovers area names.
- `Ledger` (`ledger.dfy`): the `Table` datatype (ordered column names plus a
  map from date to row), `Load` with its all-empty-row filter, `Record` (the
  upsert on the input page) and `Query` (the lookup on the areas page).
- `LedgerProperties` and `LoadProperties`: lemmas about those operations.
- `Suggestions` (`suggestions.dfy`): the five-entry product-suggestion table and its lookup.

Modelling choices:

- A date is an `int` day number. The ledger only compares dates for equality.
- Tonnage is exact `real`. The code only adds amounts and compares them with zero.
- A table is well formed (`Ledger.WellFormed`) when it has no repeated column
  name and every row has a cell for exactly the table's columns. `Record`
  requires it. The columns are distinct here because the skeleton is built from
  distinct areas and `read_excel` renames repeated headers, not because pandas
  forbids repeated labels (it does not).
- A missing file is `Load(None, …)`. A stored file is `Load(Some(t), …)`.
  `Load` models a fresh read of the saved file, and saving writes the table
  unchanged. The program itself caches `load_data()` (see "Behaviour worth knowing").
- A query for a column the table lacks raises `KeyError` in the source. Here it
  is the answer `MissingColumn`. A NaN cell makes the total NaN, modelled as `None`.

Behaviour worth knowing, as the code has it:

- `load_data` is wrapped in `@st.cache_data` (`waste_connect.py:11`) and
  `save_data` (line 152) never clears that cache. Within one server run, every
  `load_data()` call (lines 33 and 107) returns a copy of the table from the
  first call, from before any record. The Areas page does not show a new
  record until the cache is dropped. A second Submit in the same run starts from
  that old table, so its save overwrites the first record instead of adding to
  it. The lemmas that chain a save and a load (`LoadProperties.ReloadAfterRecord`,
  and `LedgerProperties.RecordTwiceAccumulates` read as two submits) describe the
  uncached reading, where each load sees the file as last saved.

- The comment at `waste_connect.py:22` says rows with invalid dates are dropped.
  The code (`dropna(how='all')`) drops rows whose cells are **all empty**, and
  rows whose date failed to parse are kept. `DropEmptyRows` models the code.
- A missing-file load builds a date-range skeleton of empty rows and then
  drops every one of them, because every cell is empty. `LoadMissingFile`
  proves that zero rows remain.
- When the prior cell is NaN, the code takes the new amount rather than adding
  it to zero. The result is the same, and `RecordOnExistingDate` states it as
  "prior amount, counting a missing value as 0, plus the new amount".

## Model

| member | source | states |
|---|---|---|
| Text.StripSuffix | waste_connect.py:108 | Deleting every occurrence of a non-self-overlapping `p` from `a + p` gives back exactly `a`, provided `a` does not contain `p`. |
| Text.StripAll | waste_connect.py:108 | `str.replace(p, "")` never makes a string longer. |
| Text.StripAllWithoutOccurrence | waste_connect.py:108 | Deleting a pattern that does not occur anywhere in the string leaves the string unchanged. |
| Columns.ColumnNameInjective | waste_connect.py:18 | Two column names are equal only when their area and their kind (dry/wet) are both equal. |
| Columns.DryWetColumnsDiffer | waste_connect.py:134-135 | An area's dry column and wet column are different columns. |
| Columns.KindColumns | waste_connect.py:18 | Each comprehension of the skeleton gives one column per area, in area order: the i-th is area i's column of that kind. |
| Columns.SkeletonColumns | waste_connect.py:18 | The skeleton has 2·|areas| columns: the dry columns in area order, then the wet columns in area order. |
| Columns.SkeletonColumnsDistinct | waste_connect.py:18 | Distinct areas give a skeleton with no repeated column. |
| Columns.MarkedColumns | waste_connect.py:60-61 | The substring filter keeps a column exactly when the column is listed and contains the mark. |
| Columns.MarkedColumnsAppend | waste_connect.py:60-61 | The filter distributes over concatenation and keeps column order. |
| Columns.OwnMarkInColumn | waste_connect.py:60-61 | An area's dry column contains "Dry Waste", and its wet column contains "Wet Waste". |
| Columns.OtherMarkNotInColumn | waste_connect.py:60-61 | For an area name without either mark, its dry column does not contain "Wet Waste" and its wet column does not contain "Dry Waste". |
| Columns.MarkedSkeleton | waste_connect.py:60-61 | On the skeleton columns, the dry filter returns exactly the dry columns in area order, and the wet filter the wet columns. |
| Columns.AreaRecovered | waste_connect.py:108 | Deleting " Dry Waste" from an area's dry column gives back the area name. |
| Columns.AreaChoicesOfSkeleton | waste_connect.py:108 | The query page's area selector, built from the skeleton columns, lists exactly the areas, in their order. |
| Columns.AreaOfDryColumnIsChoice | waste_connect.py:108 | For any column list, such as a stored file or one a record has appended to, every plain area whose dry column is present is offered by the selector. |
| Columns.ListedAreasWellChosen | waste_connect.py:6-8 | The twenty listed areas are distinct, and none contains "Dry Waste" or "Wet Waste". |
| Ledger.EmptyRow | waste_connect.py:19 | A skeleton row has a cell for every column and no present value. |
| Ledger.DropEmptyRows | waste_connect.py:23 | The filter keeps exactly the rows with at least one present cell and leaves their cells unchanged. The columns are not touched. |
| Ledger.Load | waste_connect.py:12-24 | With the file missing, the columns are the skeleton columns and there are no rows. With a stored table, the columns are kept and a stored date survives exactly when its row has a present cell, with that row unchanged. |
| Ledger.AddColumn | waste_connect.py:138-141 | Creating a missing column adds it to the column set and puts 0.0 in every existing row. Existing cells and dates are unchanged, the existing columns keep their order with the new one after them, and the table stays well formed. |
| Ledger.EnsureAreaColumns | waste_connect.py:137-141 | After this step both area columns exist. Existing cells are unchanged, and each newly created column reads 0.0 in every existing row. The existing columns keep their order at the front. |
| Ledger.Accumulate | waste_connect.py:145-146 | The updated cell is always present and equals the prior value plus the amount; a NaN prior value counts as 0. |
| Ledger.AddToRow | waste_connect.py:144-146 | Accumulating into a row changes only the dry and wet cells of the area, each by its own amount. |
| Ledger.Record | waste_connect.py:134-150 | A record keeps the table well formed. The new columns are the old ones, in their order, followed by whichever of the area's two columns were missing, and the dates are the old ones plus the recorded date. |
| Ledger.Sum | waste_connect.py:116 | The total is present exactly when both amounts are, and then it is their sum (NaN propagates). |
| Ledger.Query | waste_connect.py:113-121 | The answer is "no data" exactly when the date is absent. Otherwise it is the row's dry and wet cells, with total = dry + wet. It always answers when the table is well formed and has both columns. |
| LedgerProperties.RecordOnExistingDate | waste_connect.py:144-146 | On an existing date, each area cell becomes prior + amount, where a NaN or just-created cell counts as 0. Every other cell of that row is unchanged. |
| LedgerProperties.RecordOnNewDate | waste_connect.py:147-150 | On a new date, exactly one row is added. It holds the dry amount in the dry column, the wet amount in the wet column, and 0.0 in every other column. |
| LedgerProperties.RecordSetsAreaCells | waste_connect.py:143-150 | Whether or not the date existed, the area's cells on that date end up as the prior amount plus the new amount. |
| LedgerProperties.RecordLeavesOtherDates | waste_connect.py:138-150 | Every other date keeps all its cells and gains only the area's two columns, and a column created here reads 0.0. |
| LedgerProperties.AccumulateTwice | waste_connect.py:145-146 | Adding two amounts one after the other is the same as adding their sum. |
| LedgerProperties.EnsurePresentColumns | waste_connect.py:138-141 | When both area columns already exist, the column step changes nothing. |
| LedgerProperties.RecordTwiceAccumulates | waste_connect.py:143-150 | Two records for the same date and area leave the table exactly as one record of the summed amounts would. This is the uncached reading, where the second record starts from the first one's result. |
| LedgerProperties.EnsureAreaColumnsNonNegative | waste_connect.py:138-141 | Zero-filled new columns keep every cell non-negative. |
| LedgerProperties.RecordedRowNonNegative | waste_connect.py:144-150 | With non-negative amounts, the recorded row holds only non-negative values. |
| LedgerProperties.RecordPreservesNonNegative | waste_connect.py:130-150 | If every stored cell is ≥ 0 and both inputs are ≥ 0 (the inputs' `min_value=0.0`), every cell is still ≥ 0 after a record. |
| LedgerProperties.QueryAfterRecord | waste_connect.py:113-150 | A query just after a record reports the accumulated dry and wet amounts and their sum as the total. |
| LedgerProperties.QueryAfterRecordOnNewDate | waste_connect.py:113-150 | On a previously absent date, the query reads back exactly the recorded amounts, with total = dry + wet. |
| LedgerProperties.AdyarScenario | waste_connect.py:113-150 | Recording 2.5 dry and 1.5 wet tons for Adyar on a fresh date reads back as 2.5, 1.5 and a total of 4.0. |
| LoadProperties.DropEmptyRowsIdempotent | waste_connect.py:23 | Applying the all-empty-row filter twice is the same as applying it once. |
| LoadProperties.DropEmptyRowsWellFormed | waste_connect.py:23 | Dropping rows keeps a table well formed. |
| LoadProperties.LoadMissingFile | waste_connect.py:16-23 | With the file missing, the columns are exactly areas × {Dry, Wet}, 2·|areas| of them, and there are zero rows. The table is well formed when the areas are distinct. |
| LoadProperties.LoadMissingFileListedAreas | waste_connect.py:6-23 | For the listed areas, the missing-file table has 40 distinct columns, and its area selector lists exactly those areas. |
| LoadProperties.LoadStoredTable | waste_connect.py:15-23 | A stored table in which every row has some data loads back unchanged. |
| LoadProperties.ReloadAfterRecord | waste_connect.py:107-152 | After a record is saved and the file is read again without the cache, the recorded date is still there and the query gives the same answer. |
| Suggestions.LabelInjective | waste_connect.py:36-57 | Different waste categories are stored under different keys. |
| Suggestions.LookupByLabel | waste_connect.py:36-57 | Looking up a category's key gives that category's product and description. |
| Suggestions.LookupMatchesChoices | waste_connect.py:161-162 | A lookup succeeds exactly for the keys the page offers, so the selected key is always found. |

Functions that only compute and are covered by the lemmas above: `Columns.ColumnName`
(the f-strings at lines 18 and 134-135); `Text.Contains` (Python's `in` on strings, lines 60-61);
`Ledger.HasData` (the row mask of `dropna(how='all')`, line 23); `Columns.DryColumns`,
`Columns.WetColumns` and `Columns.AreaChoices` (lines 60-61, 108); `Ledger.Skeleton` (line 19);
`Ledger.NewRow` and `Ledger.RecordedRow` (lines 144-150); `Suggestions.Label`, `Suggest`,
`FromKey`, `Lookup` and `Choices` (lines 36-57, 161-162).

## Left out

- The Streamlit interface: sidebar buttons, session-state menu, CSS, titles, `st.write` text and the date picker bounds (lines 64-104, 106, 109-112, 117-119, 124-132, 153-168). It is presentation only. The area chosen, the date and the two amounts become parameters.
- Excel I/O (lines 13-16, 27-29): a missing file is the `None` input of `Load`, and saving is modelled as handing the table unchanged to the next fresh read of the file. Malformed files and I/O errors are not modelled.
- The `@st.cache_data` memoisation of `load_data` (line 11). `Load` is a fresh read of the saved file. The cached program returns the table from before any save instead, so a record is not shown and a second record in the same run overwrites the first (see "Behaviour worth knowing").
- `datetime.today()` and `pd.date_range` (lines 19, 109, 127): the skeleton's date range is the `days` parameter, and the current date is the `date` parameter of `Record`.
- `pd.to_datetime(errors='coerce')` (line 21): dates are already parsed days. A row whose date fails to parse (NaT) cannot be represented. In the source such a row survives the filter anyway.
- The string date used by the input page (line 127) against the Timestamp index (line 149). Both are the same `Date` here.
- Row order and duplicate dates: the rows are a map, so a new date has no position, and a stored file with a repeated date cannot be represented.
- Floating-point rounding and `:.2f` display (lines 116-119). Amounts are exact reals.
- LedgerProperties.RecordTwiceAccumulates: holds for exact reals; with floats the two sides agree only up to rounding, since float addition is not associative.
- The random bootstrap-sample generator (`data sampling.py`). It is a one-off script outside the ledger.
