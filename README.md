# merge-hydro: layout discovery and bill-table pipeline

This project models the core of `process.py`, a script that reads "Hydro One"
utility invoices from Excel workbooks and merges them. The script finds the
billing table inside the "Invoice Summary" sheet by searching for landmark
labels. It concatenates the per-file tables, derives the reading length, drops
two kinds of non-billable rows and the configured columns, and writes one
output sheet per account.

Modules:

- `Common` (common.dfy): `Option`, `Result`, the `Value` of a cell or field, and ASCII lower-casing.
- `Sequences` (sequences.dfy): `Filter`, the order-preserving selection behind a pandas boolean mask, and its laws.
- `Layout` (layout.dfy): the sheet as a grid of `Cell(value, ctype)`.
  - `FindInSheet` is `find_in_sheet`: nested loops with an early return.
  - `GetBillingLines` is `get_billing_lines`: a `while` loop over the line column.
  - `GetBillLayout` is the arithmetic of `get_bill_dataframe`: header row, footer size and column list.
  - Each method is proved against a specification function (`FirstMatch`, `RunLength`, `BillingLines`) whose meaning is proved as lemmas.
- `Merge` (merge.dfy): a table is a list of column names plus rows of (account, fields).
  - `Concat`, `Derive` and `Exclude` model the pandas steps of `process`.
  - `ApplyDrop` is the Drop loop of `process`, one label at a time, proved against `DropColumns`.
  - `Process` chains them.
- `Output` (output.dfy): Python's `str` of an account number, the alias lookup, and `WriteOutput`, which builds one sheet per account.

Three behaviours follow the code as written rather than a tidier reading of it:

- Walking down the line column past the last row is an `IndexError` (`Err(IndexError)`). It is not a normal stop at the end of the sheet.
- A missing "Metered Usage [kWh]" label surfaces as find_in_sheet's `LookupError`. It is not a separate format error.
- Re-running the pipeline on its own output is not always a no-op. Exclusion and the drop remove nothing more only when Drop spares "Service Classification" and "Reason Not Billed". If Drop lists either one, the output lacks a column the exclusion masks read, and a second run fails with `KeyError` at process.py:91-92 (`RerunExcludeAndDrop`, `RerunAfterServiceDropFails`).

## Model

| member | source | states |
|---|---|---|
| `Layout.FindInSheet` | process.py:19-25 | Returns the row-major first cell whose value equals `val`, so no cell in an earlier row or earlier in the same row holds it. Returns `LookupError` exactly when no cell of the grid holds `val`. |
| `Layout.FirstMatchMeaning` | process.py:19-25 | The search specification yields a coordinate exactly when the value occurs. A cell is the row-major first occurrence exactly when the search names it. |
| `Layout.FirstMatchUnique` | process.py:19-24 | Row-major order admits only one first occurrence of a value. |
| `Layout.FindFromSkips` | process.py:21-24 | The search from row r finds nothing exactly when no cell at or below row r matches. Any match it finds has no match before it in rows r onward. |
| `Layout.RunLengthMeaning` | process.py:37-41 | The downward walk returns n exactly when rows r..r+n-1 of the column are numeric and row r+n is inside the sheet and not numeric. It fails with `IndexError` exactly when every cell to the bottom is numeric. |
| `Layout.GetBillingLines` | process.py:28-41 | `NotABill` (the ValueError) exactly when there is no "Line #" cell. Otherwise counts the numeric cells below the first "Line #" cell up to an in-sheet non-numeric cell. `IndexError` when the numeric run reaches the last row. |
| `Layout.GetBillLayout` | process.py:56-72 | Errors come from get_billing_lines first, then `LookupError` for a missing usage label. The header row and line-number column are the first "Line #" match, from which the billing lines were counted, and the last column is the first usage match. Header, line rows and footer (≥ 1) account for every row. The rows between header and footer are exactly the numbered lines. `useCols` is 1..lastCol. |
| `Merge.UnionColumns` | process.py:78 | Concatenated columns hold no name twice and contain exactly the names of some input table. |
| `Merge.Concat` | process.py:78 | Fails exactly when there are no tables. Otherwise the result is well formed. |
| `Merge.ConcatColumns` | process.py:78 | The first table's columns lead, in order. Every column of every table appears. |
| `Merge.ConcatRows` | process.py:78 | The row count is the sum of the per-file row counts. Row k keeps the account and every field of the k-th input row, in input order; other columns are Missing. |
| `Merge.Derive` | process.py:80-88 | On success the table stays well formed. When it fails, and what it yields, are stated in `DeriveFails` and `DeriveMeaning`. |
| `Merge.AllRowsAppend` | process.py:78 | The rows of the concatenation of two lists of tables are the first list's rows followed by the second's. |
| `Merge.ConcatKeepsBillOrder` | process.py:75-77 | Concatenating bills keeps them in file order. The leading rows match the earlier bills' rows one to one, and the remaining rows match the later bills' rows. |
| `Merge.DeriveFails` | process.py:80-88 | Derivation fails exactly when a date or usage column is missing or some date does not parse. |
| `Merge.DeriveMeaning` | process.py:80-88 | Each row keeps its account and other fields, and its dates become day numbers. "Days In Reading" is To minus From. "kWh Per Day" is usage over those days (not evaluated). |
| `Merge.Exclude` | process.py:91-92 | Exclusion keeps a table well formed. |
| `Merge.ExcludeFails` | process.py:91-92 | Exclusion fails exactly when the Service Classification or Reason Not Billed column is missing. |
| `Merge.ExcludeMeaning` | process.py:91-92 | Keeps exactly the rows that are not "Sentinel Lights" and not the cut-off reason, in order, with the same columns. The result is strictly shorter exactly when some row fails a rule. |
| `Merge.ExcludeIdempotent` | process.py:91-92 | Excluding an already excluded table changes nothing. |
| `Sequences.FilterCompose` | process.py:91-92 | Two masks applied in a row select exactly the rows satisfying both. |
| `Sequences.FilterAppend` | process.py:91-92 | Mask selection preserves relative order: it distributes over concatenation. |
| `Merge.WithoutTwice` | process.py:98 | Dropping a set of labels and then one more label equals dropping them together. |
| `Merge.DropMeaning` | process.py:95-98 | A column is removed exactly when a Drop section exists and lists its lower-cased name. Survivors keep their order, rows keep accounts and surviving fields, and the table stays well formed. |
| `Merge.DropIdempotent` | process.py:95-98 | Applying the drop a second time with the same configuration changes nothing. |
| `Merge.ApplyDrop` | process.py:95-98 | The label-by-label loop over the column snapshot leaves exactly the table `DropColumns` specifies. |
| `Merge.Cleaned` | process.py:76-92 | Concatenation, derivation and exclusion, in that order, produce a well-formed table or the first error. |
| `Merge.DerivedKeepsVerdict` | process.py:77-87 | Concatenating the bills and deriving the date columns keep one row per bill row, in order, and each row keeps its verdict under both exclusion rules. |
| `Merge.CleanedMeaning` | process.py:76-92 | Before the drop, a successful run has no more rows than all bills together, and every row passes both exclusion rules. It has strictly fewer rows exactly when some bill row fails an exclusion rule. |
| `Merge.Process` | process.py:75-101 | Fails with the first error of concatenation, derivation or exclusion. Otherwise returns that table with the configured columns dropped. |
| `Merge.ProcessMeaning` | process.py:75-101 | A successful run yields a well-formed table with no more rows than all bills together. It has strictly fewer rows exactly when some bill row fails an exclusion rule. Every row passes both exclusion rules and no listed column remains. |
| `Merge.DropKeepsVerdicts` | process.py:95-98 | Dropping columns keeps every row, so the row count and each row's exclusion verdict are unchanged. The result is well formed and lists no dropped column. |
| `Merge.RerunExcludeAndDrop` | process.py:89-98 | Run again on their own output, the drop changes nothing and the output stays well formed. Exclusion fails exactly when Drop lists "service classification" or "reason not billed". Otherwise it returns the output unchanged, so no further row or column is removed. |
| `Merge.RerunAfterServiceDropFails` | process.py:89-98 | With Drop listing "service classification", a second exclusion on the output fails on the missing column, as pandas' `KeyError` does. |
| `Output.NatToStringRoundTrip` | process.py:110 | The decimal digits written for a non-negative account number read back as that number. |
| `Output.IntToStringRoundTrip` | process.py:110 | `str(account)` decodes back to the account, so distinct accounts have distinct string keys. |
| `Output.IntToString` | process.py:110 | Python's `str` of an int: non-empty, a leading `-` exactly for negative accounts, decimal digits otherwise. |
| `Output.SheetName` | process.py:110-113 | Without an alias, the sheet name decodes back to the account number. |
| `Output.RowsOf` | process.py:114 | The rows of the table whose account is the given one, and no others. All rows come back exactly when every row belongs to that account. The order is the table's, since the rows are selected by a filter. |
| `Output.UnaliasedNamesDistinct` | process.py:110-113 | Two different accounts without aliases never share a sheet name. |
| `Output.WriteOutput` | process.py:104-115 | Writes one sheet per distinct account, no account twice. Each sheet is named by the alias rule and holds exactly that account's rows in table order. Every row lands in some sheet. |

## Left out

- Workbook I/O is not modelled: opening the workbook, `sheet_by_name` and its error, `pd.read_excel`, `pd.ExcelWriter` and `to_excel`. The sheet is given as a value. `GetBillLayout` stops at the parameters computed for the reader. `WriteOutput` returns the sheets instead of writing them.
- Date parsing (`pd.to_datetime`, `.date()`, the timedelta conversion) is the parameter `parseDate: Value -> Option<int>`. It maps a cell to a day number, or fails.
- Merge.Derive: blank or padded date cells are not modelled as the source treats them. `pd.to_datetime` turns a blank cell, or the NaN that concatenation puts in a bill lacking a date column, into NaT, and the run goes on with NaN in "Days In Reading". `parseDate` has no such outcome, so on `Missing` the model either fails with `BadDate` or yields a day number. `Process` can therefore fail where the script succeeds.
- The "kWh Per Day" float division is not evaluated. The field holds `Ratio(usage, days)`, so NaN or infinity on zero-day readings is not modelled.
- Lower-casing of column names folds only the ASCII letters A–Z. Python's full Unicode `str.lower` is not modelled.
- Merge.ApplyDrop: column labels are modelled as strings. A non-string header label (a numeric cell read as a column name) makes `.lower()` raise AttributeError at process.py:97 when a Drop section exists; that error is not modelled.
- Configuration loading (configparser and its key lower-casing), file discovery by glob, `main` and all logging are not modelled. The Drop section is an `Option<set<string>>` and the aliases a `map<string, string>`.
- Converting the account column to int is not modelled: rows carry an integer account already.
- `WriteOutput` visits accounts in an arbitrary order, as Python's set iteration does. Two accounts resolving to the same sheet name, and `.loc` returning a one-row Series rather than a table, are library behaviour and not modelled.
- Tables are assumed well formed (distinct column names, every row having exactly the table's columns), as the reader produces them. Cell values compare structurally; Python's cross-type equality (e.g. `1 == 1.0`) is not modelled.
- Concatenating tables whose columns differ follows pandas' unsorted outer join: columns in order of first appearance, missing fields Missing. Other join modes are not modelled.
- The sheet is rectangular (`Sheet.Valid`), as xlrd pads every row to `ncols`.
