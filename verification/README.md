# CPI dashboard core in Dafny

This project models the data core of the Streamlit dashboard `app.py`. The dashboard charts the Japanese consumer price index (2020 base), using the half-yearly e-Stat data for June and December.

It covers four parts:

- **Preprocessing** (`app.py` lines 22-36). Each CSV row becomes a typed row:
  - the region name (`地域名`) is trimmed of surrounding whitespace;
  - the item name (`品目名`) loses one leading numeric code (`^\d+\s+`) and is then trimmed;
  - the year comes from the first run of four digits of the period label (`時間軸（年・月）`);
  - the month comes from the first `(\d{1,2})月` match;
  - the index and year-over-year cells are coerced to numbers, or to nothing when they are not numbers.

  The table is then sorted stably by `(year, month)`. If any label yields no year, or no month, the whole load fails.
- **Sidebar term**: the half-year radio choice becomes month 6 or 12 (line 61).
- **The two queries**:
  - the point query `df_bar` (lines 81-86): one item, one region, one year and one month;
  - the range query `df_line` (lines 88-93): one item, a set of regions, and an inclusive span of years.
- **Empty result**: the chart tab shows a warning instead of a chart exactly when the selected slice is empty (lines 144-146 and 201-202).

Modules, one per file:

- `Wrappers`: `Option` and `Result`.
- `Text`: Python's whitespace set (`str.isspace`, which is also the set `\s` matches), decimal digits, `Trim`, and decimal numerals.
- `Records`: the raw and typed row, and the `(year, month)` order.
- `Subsequences`: order-preserving selection, which is what a boolean mask does.
- `Sorting`: a stable sort by `(year, month)`.
- `Cleaning`: the region and item columns.
- `Labels`: the year and month extraction.
- `Normalizer`: the whole preprocessing pass.
- `Query`: the term, the two filters and the warning-or-chart decision.

Parameters, and behaviour of the code worth knowing:

- `pd.to_numeric(errors="coerce")` is a parameter `parse: string -> Option<Num>`, where `Num` is an abstract type. The model proves that every row keeps its coerced values, whatever the parser returns.
- Region codes: the comment `# *地域名（コード除去）` on line 22 speaks of removing codes from region names. The code on line 23 only strips whitespace, and the model follows the code.
- Item codes: item normalisation strips **one** code only, so it is not idempotent. `"12 34 x"` becomes `"34 x"`, and a second pass gives `"x"`. The model proves exactly when it is idempotent (`Cleaning.ItemIdempotentIff`) and that it is not in general (`Cleaning.ItemNotIdempotent`). Region trimming is idempotent (`Cleaning.RegionIdempotent`).
- Months: the month pattern takes one or two digits directly before `月`, and nothing checks the range. So `"123月"` yields month 23, and months such as 0 or 99 are accepted.
- Regions: the region multiselect (lines 64-68) may be left empty. The range query then has no rows, and the warning is shown.
- Sorting: `sort_values` on two columns uses a stable lexicographic sort. `Sorting.SortStable` proves stability for the model's sort.
- Year bounds: the slider (lines 70-75) always gives ordered bounds, but the filter on lines 91-92 does not depend on that. The model accepts any bounds. With reversed bounds no row matches, so by `Query.RangeQueryEmptyIff` the result is empty.

## Model

| member | source | states |
|---|---|---|
| Text.Trim | app.py:23 | the result has no leading and no trailing whitespace character (whitespace as Python's `str.strip()` defines it) |
| Text.TrimIsSlice | app.py:23 | the trimmed text is a contiguous slice of the input, and what is cut off on either side is all whitespace |
| Text.TrimStartCut | app.py:23 | the leading part `strip` removes is all whitespace |
| Text.TrimEndCut | app.py:23 | the trailing part `strip` removes is all whitespace |
| Text.TrimExact | app.py:23 | whitespace around a text that neither starts nor ends with whitespace is removed exactly, leaving that text |
| Text.TrimIdempotent | app.py:23 | trimming twice gives the same as trimming once |
| Cleaning.RegionExact | app.py:23 | a region name padded with whitespace on both sides is normalised to the bare name |
| Cleaning.RegionIdempotent | app.py:23 | normalising a region name already normalised changes nothing |
| Cleaning.CodePrefix | app.py:26 | `^\d+\s+` matches exactly when the text starts with digits followed by whitespace; the match found is valid, uses the whole leading digit run, and takes the longest whitespace run (greedy) |
| Cleaning.ItemWithCode | app.py:26 | a digit code, whitespace and then a name normalise to the trimmed name |
| Cleaning.ItemWithoutCode | app.py:26 | an item without a code prefix is only trimmed |
| Cleaning.CodeWithoutGap | app.py:26 | a code glued to the name with no whitespace between them is not removed; the item is only trimmed |
| Cleaning.CodeGluedToName | app.py:26 | a code glued to a trimmed name that does not start with a digit survives normalisation in full |
| Cleaning.NameWithoutCode | app.py:26 | a trimmed name that does not start with a digit is left as it is |
| Cleaning.CodeBeforeName | app.py:26 | a digit code, whitespace and a trimmed name normalise to exactly that name |
| Cleaning.ItemExampleCoded | app.py:26 | `0001 総合` normalises to `総合` |
| Cleaning.ItemExampleName | app.py:26 | `食料` is left as it is |
| Cleaning.ItemExampleNoGap | app.py:26 | `0001総合` is left as it is |
| Cleaning.ItemIdempotentIff | app.py:26 | normalising an already normalised item changes nothing exactly when no code prefix is left on it |
| Cleaning.ItemNotIdempotent | app.py:26 | with two codes in front of a name, one pass removes the first code, a second pass removes the other, and the two results differ |
| Cleaning.ItemNotIdempotentExample | app.py:26 | `12 34 x` normalises to `34 x`, which normalises to `x` |
| Labels.ExtractYear | app.py:29 | a year exists exactly when the label has four consecutive digits; it is the value of the leftmost such run, and lies in 0..9999 |
| Labels.ExtractMonth | app.py:30 | a month exists exactly when one or two digits stand directly before `月`; it is the value of the leftmost such match, and lies in 0..99 |
| Labels.LabelRoundTrip | app.py:29-30 | reading back a label `YYYY年M月` (four-digit year, month below 100) gives that year and month |
| Labels.LabelExampleFirstHalf | app.py:29-30 | `2020年6月` reads as year 2020 and month 6 |
| Labels.LabelExampleSecondHalf | app.py:29-30 | `2020年12月` reads as year 2020 and month 12 |
| Labels.NoYearWithoutFourDigits | app.py:29 | a label without four consecutive digits has no year |
| Labels.NoMonthWithoutMarker | app.py:30 | a label without `月` has no month |
| Normalizer.MakeRows | app.py:22-33 | one typed row per CSV row, in the same order. Each row has the trimmed region, the item without its code, the label with the year and month read from it, and the coerced index and year-over-year values |
| Normalizer.NormalizeTable | app.py:22-36 | the load succeeds exactly when every label has a year and a month. A failure is reported as a missing year exactly when some label lacks a year (the year column is converted first). A success keeps the same rows (as a multiset), as many as the input, sorted by `(year, month)` |
| Normalizer.NormalizeKeepsEveryRow | app.py:22-33 | every CSV row appears in the table: region trimmed, item without its code, label kept with its year and month, numeric cells coerced; unreadable numbers do not drop the row |
| Normalizer.NormalizeStable | app.py:35-36 | rows that share a year and month keep their CSV order |
| Sorting.InsertByKey | app.py:36 | inserting a row keeps the multiset, and keeps a sorted table sorted |
| Sorting.SortByYearMonth | app.py:36 | the result is sorted by `(year, month)` and is a permutation of the input |
| Sorting.SortStable | app.py:36 | for every `(year, month)`, the rows with that key appear in the sorted table in input order |
| Sorting.InsertStable | app.py:36 | inserting a row adds it after all rows already present with its key |
| Sorting.SortedSubsequence | app.py:36 | any subsequence of a sorted table is sorted |
| Subsequences.Select | app.py:81-93 | every element a boolean mask keeps satisfies the mask |
| Subsequences.SelectCount | app.py:81-93 | a boolean mask keeps each matching value exactly as often as it occurs, and no other value |
| Subsequences.SelectIsSubsequence | app.py:81-93 | a boolean mask keeps the table order |
| Subsequences.SelectAppend | app.py:81-93 | masking a concatenation is the concatenation of the masked parts |
| Subsequences.SelectEmptyIff | app.py:81-93 | a masked table is empty exactly when no element matches |
| Subsequences.SelectSingle | app.py:81-86 | when exactly one element matches, the mask yields that element alone |
| Query.TermMonth | app.py:61 | the month is 6 or 12, and it is 6 exactly when the term is `6月(上期)` |
| Query.FilterPoint | app.py:81-86 | `df_bar` keeps, in table order, exactly the rows equal to the selection in item, region, year and month, each as often as it occurs |
| Query.FilterRange | app.py:88-93 | `df_line` keeps, in table order, exactly the rows of the item whose region is selected and whose year lies between the bounds (both included) |
| Query.PointQueryUnique | app.py:81-86 | with one matching row in the table, `df_bar` is that row alone |
| Query.PointQueryEmptyIff | app.py:81-86 | `df_bar` is empty exactly when no row matches all four fields |
| Query.RangeQueryEmptyIff | app.py:88-93 | `df_line` is empty exactly when no row matches |
| Query.RangeQuerySorted | app.py:88-93 | on a sorted table, `df_line` is sorted by `(year, month)` |
| Query.Rows | app.py:80-93 | for either kind of selection, the slice holds every matching row as often as it occurs and nothing else, in table order |
| Query.RowsEmptyIff | app.py:80-93 | the slice is empty exactly when no row matches the selection |
| Query.Render | app.py:144-146 | the warning is shown exactly when no row matches. Otherwise the chart holds every matching row as often as it occurs and nothing else, in table order |
| Query.RangeChartSorted | app.py:201-204 | after a successful load, a time-series chart's rows are ordered by `(year, month)` |

## Left out

- The Streamlit page, sidebar widgets, tabs and explanatory text, and the Plotly charts (including the `melt` that reshapes `df_bar`): these are presentation, not data logic. The selection is a parameter of the queries instead.
- Reading `cpi_data.csv`: file I/O. The model starts from a sequence of raw rows holding the five columns it uses; the other columns are left out.
- Text-to-number parsing in `pd.to_numeric`: floating point is left out. The parser is a parameter, and `Num` is an abstract type.
- Normalizer.NormalizeTable: the load failure stands for the exception `astype(int)` raises; the model records which column failed, not the exception message.
- Decimal digits of scripts other than ASCII and fullwidth (`０`-`９`): `\d` in Python matches every Unicode decimal digit, but the model recognises only these two ranges, the ones the data uses.
- Missing (NaN) cells in the region, item and label columns: every cell is modelled as a string.
- The widget options (`unique()` lists, the sorted year list, the default regions `全国` and `東京都区部`, the slider bounds from the table's minimum and maximum year): they only limit which selections a user can make, and the queries are proved for every selection.
- The text of the two warnings: the model records only that a warning is shown instead of a chart.
