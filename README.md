# Sina fund-flow downloader, modelled in Dafny

This project models the core of `scripts/download_sina_fundflow_test.py`, a
script that downloads the daily capital-flow history of one stock from Sina
Finance's paginated JSON endpoint and normalises it into a fixed table. The
model has two parts.

- **The paginated harvest** (`get_fundflow_history`). The stock code has every
  `.` deleted to form the API symbol. Then pages 1, 2, … of `PAGE_SIZE` (50)
  records are requested. Every non-empty page is appended. The loop stops on
  an empty page, on a page shorter than the page size (after appending it), or
  on a failed request (keeping what was gathered, with no retry). This is the
  method `Paginator.FetchHistory`. It is proved against the recursive function
  `Paginator.HarvestFrom`, and the lemmas about that function state what the
  harvest gathers.
- **The cleaning step** (`clean_and_save` up to the sort). The steps are:
  - Keep the `COLUMN_MAP` fields that occur in the raw table, in the map's
    order.
  - Rename them to their canonical names.
  - Coerce `date` with the date parser and every other kept column with the
    number parser. A value that does not parse becomes null, and the row stays.
  - Add the constant `code` column holding the stock code as text.
  - Sort ascending by date, with null dates last.

  The outcomes are:
  - an empty frame saves nothing;
  - a frame with none of the fields skips saving;
  - a frame with some fields but no `opendate` fails (the `KeyError` raised at
    line 103 by `df_clean['date']`), which is the outcome `DateColumnMissing`;
  - otherwise the cleaned table.

  The cleaning is written as `Normalizer.NormalizeWith` over any well-formed
  column table. `Normalizer.Normalize` is that function applied to
  `COLUMN_MAP`.

Modules:
- `Wrappers`: the `Option` type.
- `Cells`: exact decimals, cells and rows.
- `Columns`: the column table, `COLUMN_MAP` and dict lookup.
- `Paginator`: the harvest.
- `DateSort`: the sort by date.
- `Normalizer`: the cleaning step.
- `Pipeline`: what the two steps do together, and the worked examples of the
  cleaning step.

Choices the model makes:
- **The network.** The HTTP round trip is replaced by a script of page
  outcomes: page `p` answers `script[p - 1]`. A request failure, a bad status,
  a decoding failure and a JSON failure are all `Failed`. A null or empty body
  is `Page([])`. A remote history is finite, so every page past the end of the
  script answers with no records.
- **The parsers.** The parsers behind `pd.to_datetime` and `pd.to_numeric` are
  parameters (`Normalizer.Parsers`), applied element by element, where `None`
  means the value is coerced to null.
- **Missing fields.** A field that a record lacks but another record has is
  NaN in the frame. The model represents it as a missing value, which both
  parsers turn into null.
- **The `code` column.** `code` is added at line 108, after the coercion of
  lines 103-105, so it is never coerced. `Normalizer.CleanRow` and
  `Normalizer.NormalizeRowShape` state that it holds the stock code as text.

## Model

| member | source | states |
|---|---|---|
| Paginator.FetchHistory | scripts/download_sina_fundflow_test.py:33-79 | The loop returns exactly the records of the harvest function and stops for the same reason. It issues one request per page up to the last page requested, and request `i` asks for page `i + 1` with `num = 50` and the dot-stripped code. |
| Paginator.Respond | scripts/download_sina_fundflow_test.py:47-50 | Definition, no contract: the answer to page `p` is the script's `p`-th outcome, and every page past the end of the script is empty. It replaces the request, status check, decoding and JSON steps; `HarvestShape` and `FetchHistory` state what the loop does with it. |
| Paginator.History | scripts/download_sina_fundflow_test.py:35-44 | Definition, no contract: the harvest started at page 1. Stated by `FetchHistory`, `EmptyFirstPage`, `FullPagesThenPartial` and `FailureKeepsEarlierPages`. |
| Paginator.HarvestFrom | scripts/download_sina_fundflow_test.py:44-79 | Starting at page `p`, the harvest never ends before page `p`, and it goes past `p` only when `p` is inside the finite script. |
| Paginator.HarvestShape | scripts/download_sina_fundflow_test.py:44-79 | Every page before the last one requested was full. The records are those pages' bodies, in request order, followed by the last page's body. The last page's outcome (failed, empty or short) is the reason the loop stopped. |
| Paginator.FirstNonFullEnds | scripts/download_sina_fundflow_test.py:52-79 | The last page requested is the first page that is not full. |
| Paginator.FullPageStep | scripts/download_sina_fundflow_test.py:56-75 | After a full page, the harvest is that page's body followed by the harvest from the next page, ending on the same page for the same reason. |
| Paginator.BodiesLength | scripts/download_sina_fundflow_test.py:56 | `k` pages of exactly `size` records contribute `k * size` records. |
| Paginator.EmptyFirstPage | scripts/download_sina_fundflow_test.py:52-54 | An empty or null first page ends the harvest after one request, with no records, as exhausted. |
| Paginator.FullPagesThenPartial | scripts/download_sina_fundflow_test.py:56-75 | `k` full pages and then a short non-empty page of `L` records give `k * size + L` records, the bodies in page order, after `k + 1` requests, stopping on the partial page. |
| Paginator.FailureKeepsEarlierPages | scripts/download_sina_fundflow_test.py:77-79 | A failure after `k` full pages stops at page `k + 1` with no retry, keeping exactly the earlier pages' records. |
| Paginator.StripDots | scripts/download_sina_fundflow_test.py:37 | The API symbol contains no `.` and is no longer than the code. |
| Paginator.StripDotsCounts | scripts/download_sina_fundflow_test.py:37 | Only dots are deleted: every other character is kept, as often as it occurs. |
| Paginator.StripDotsAppend | scripts/download_sina_fundflow_test.py:37 | Deleting dots distributes over concatenation, so the kept characters stay in order. |
| Paginator.StripDotsKeepsDotless | scripts/download_sina_fundflow_test.py:37 | A code without dots is its own API symbol. |
| Columns.Sources | scripts/download_sina_fundflow_test.py:94 | The keys of the table, in order, one per entry. |
| Columns.Targets | scripts/download_sina_fundflow_test.py:100 | The canonical names of the table, in order, one per entry. |
| Columns.Lookup | scripts/download_sina_fundflow_test.py:100 | The dict lookup finds a name exactly when the field is a key, and the name it finds is paired with that field in the table. |
| Columns.LookupFindsEntry | scripts/download_sina_fundflow_test.py:100 | In a one-to-one table, looking up an entry's field finds that entry's name. |
| Columns.ColumnMapOneToOne | scripts/download_sina_fundflow_test.py:20-30 | No two `COLUMN_MAP` entries share a field or a canonical name. |
| Columns.ColumnMapHasDate | scripts/download_sina_fundflow_test.py:21 | `opendate` is a key of `COLUMN_MAP`. |
| Columns.ColumnMapShape | scripts/download_sina_fundflow_test.py:20-30 | `COLUMN_MAP` is one-to-one and never renames to `code`. Exactly `opendate` is renamed to `date`. |
| Normalizer.HasField | scripts/download_sina_fundflow_test.py:85 | Definition, no contract: the frame built from the records has column `k` exactly when some record has field `k`. Used by `AvailableMembers`, `NormalizeWith` and `Normalize`. |
| Normalizer.FrameIsEmpty | scripts/download_sina_fundflow_test.py:91 | Definition, no contract: `df.empty`, which holds when there are no records or no record has a field. Stated by the `NothingToSave` clause of `NormalizeWith`. |
| Normalizer.AvailableColumns | scripts/download_sina_fundflow_test.py:94 | Definition, no contract: `available_cols` paired with the rename, i.e. the table entries in table order whose field is a frame column. Stated by `AvailableMembers`, `AvailableInOrder`, `AvailableSources` and `AvailableDate`. |
| Normalizer.AvailableMembers | scripts/download_sina_fundflow_test.py:94 | An entry is kept exactly when it is in the table and some record has its field. |
| Normalizer.AvailableInOrder | scripts/download_sina_fundflow_test.py:94 | The kept entries keep the table's order. |
| Normalizer.AvailableOneToOne | scripts/download_sina_fundflow_test.py:94 | The kept part of a one-to-one table is one-to-one. |
| Normalizer.AvailableSources | scripts/download_sina_fundflow_test.py:94-100 | The kept fields are exactly the table's fields that are frame columns. Each is renamed as the dict lookup in the whole table renames it. |
| Normalizer.AvailableLookup | scripts/download_sina_fundflow_test.py:100 | Renaming by a kept entry agrees with the dict lookup in the table. |
| Normalizer.AvailableSourcesFound | scripts/download_sina_fundflow_test.py:94 | Every table field that some record has is kept. |
| Normalizer.AvailableSourcesKept | scripts/download_sina_fundflow_test.py:94 | Every kept field is a table field that some record has. |
| Normalizer.AvailableWellFormed | scripts/download_sina_fundflow_test.py:94-100 | The kept part of a well-formed table is well-formed. |
| Normalizer.AvailableDate | scripts/download_sina_fundflow_test.py:94-103 | The renamed frame has a `date` column if and only if the table has `opendate` and some record has it. |
| Normalizer.AvailableDateKept | scripts/download_sina_fundflow_test.py:94-103 | A kept `date` column comes from `opendate`, which some record has. |
| Normalizer.AvailableDateFound | scripts/download_sina_fundflow_test.py:94-103 | If the table has `opendate` and some record has it, `date` is kept. |
| Normalizer.AvailableEmpty | scripts/download_sina_fundflow_test.py:94-97 | Nothing is kept exactly when no table field is a frame column. |
| Normalizer.RawField | scripts/download_sina_fundflow_test.py:85 | Definition, no contract: one record's field after `pd.DataFrame`, missing (NaN) where the record lacks it. Stated by the value clauses of `CleanRow`. |
| Normalizer.CoerceDate | scripts/download_sina_fundflow_test.py:103 | Definition, no contract: `pd.to_datetime(..., errors='coerce')` on one value, where a missing value or a parse failure gives null. Stated by the date clause of `CleanRow` and by `BadDateScenario`. |
| Normalizer.CoerceNumber | scripts/download_sina_fundflow_test.py:105 | Definition, no contract: `pd.to_numeric(..., errors='coerce')` on one value, where a missing value or a parse failure gives null. Stated by the numeric clause of `CleanRow`. |
| Normalizer.Coerce | scripts/download_sina_fundflow_test.py:103-105 | Definition, no contract: the `date` column goes through the date parser and every other kept column through the number parser. Stated by `CoercedFields` and `CleanRow`. |
| Normalizer.CoercedFields | scripts/download_sina_fundflow_test.py:99-105 | The row has exactly the kept canonical names. Each holds its raw field coerced by the parser for that column. |
| Normalizer.CleanRow | scripts/download_sina_fundflow_test.py:99-108 | A cleaned row has exactly the kept canonical names plus `code`. `code` holds the stock code as text. `date` is the parsed `opendate`, or null when it is missing or does not parse. Every other column is the parsed number, or null. |
| Normalizer.CleanRows | scripts/download_sina_fundflow_test.py:99-108 | One cleaned row per raw record, in the raw order. |
| Normalizer.NormalizeWith | scripts/download_sina_fundflow_test.py:91-109 | Each "if and only if" below holds in both directions. Nothing is saved on an empty frame. Saving is skipped when no table field occurs. The date column is missing (the `KeyError`) when fields occur but not `opendate`. The table is cleaned when `opendate` occurs. |
| Normalizer.Normalize | scripts/download_sina_fundflow_test.py:91-109 | With `COLUMN_MAP`, the raw table is cleaned if and only if some record has `opendate`. |
| Normalizer.CleanRowsShape | scripts/download_sina_fundflow_test.py:99-108 | Every cleaned row has exactly the output columns, and `code` holds the stock code. |
| Normalizer.NormalizeRowShape | scripts/download_sina_fundflow_test.py:99-109 | When `opendate` occurs, the cleaned table has one row per raw record. Its columns are the kept canonical names in table order, followed by `code`. Every row has exactly those columns, with the stock code as text under `code`. |
| Normalizer.NormalizeSorted | scripts/download_sina_fundflow_test.py:99-109 | When `opendate` occurs, the cleaned rows are a permutation of the cleaned records. They are sorted by date, and the null dates come last. |
| Normalizer.NormalizeCleaned | scripts/download_sina_fundflow_test.py:91-109 | When the table has `opendate` and some record has it, the result is the sorted cleaned rows under the kept canonical names and `code`. |
| Normalizer.CleanRowsSingle | scripts/download_sina_fundflow_test.py:99-108 | One record gives exactly its cleaned row. |
| Normalizer.NormalizeSingle | scripts/download_sina_fundflow_test.py:91-109 | A one-record table with `opendate` gives exactly that record's cleaned row. |
| DateSort.KeyLe | scripts/download_sina_fundflow_test.py:109 | Definition, no contract: the order `sort_values` uses, dates ascending and every null date after every date. Stated by `NullDatesLast`. |
| DateSort.SortedByDate | scripts/download_sina_fundflow_test.py:109 | Definition, no contract: every row's key is at most every later row's key. Ensured by `SortByDate` and `NormalizeSorted`, and read back by `NullDatesLast`. |
| DateSort.Insert | scripts/download_sina_fundflow_test.py:109 | Inserting a row into a sorted table keeps it sorted. It adds exactly that row and nothing else. |
| DateSort.SortByDate | scripts/download_sina_fundflow_test.py:109 | The result is sorted ascending by date with null dates last, and it is a permutation of the input. |
| DateSort.SortSingle | scripts/download_sina_fundflow_test.py:109 | A single row is left as it is. |
| DateSort.SortByDateMembers | scripts/download_sina_fundflow_test.py:109 | Sorting keeps the number of rows and invents none. |
| DateSort.NullDatesLast | scripts/download_sina_fundflow_test.py:109 | In a sorted table, every row after a null date has a null date, and adjacent dates ascend. |
| Pipeline.EmptyFirstPageSavesNothing | scripts/download_sina_fundflow_test.py:81-92 | An empty first page leads to an empty frame, and to nothing saved. |
| Pipeline.AvailableTail | scripts/download_sina_fundflow_test.py:94 | With only `opendate`, `trade` and `r0_net` present, the last four `COLUMN_MAP` entries keep only `r0_net`. |
| Pipeline.AvailableMiddle | scripts/download_sina_fundflow_test.py:94 | With only those three fields present, `changeratio`, `turnover` and `netamount` are dropped. |
| Pipeline.AvailableOfThree | scripts/download_sina_fundflow_test.py:94 | With only those three fields present, the kept columns are `opendate`→`date`, `trade`→`close` and `r0_net`→`main_net_flow`, in that order. |
| Pipeline.ThreeWellFormed | scripts/download_sina_fundflow_test.py:20-30 | Those three entries form a well-formed table whose names are `date`, `close` and `main_net_flow`. |
| Pipeline.CleanRowOfThree | scripts/download_sina_fundflow_test.py:99-108 | A record with parseable `opendate`, `trade` and `r0_net` cleans to the row {date, close, main_net_flow, code}. |
| Pipeline.OneRecordFields | scripts/download_sina_fundflow_test.py:85 | The frame built from one record with exactly the fields `opendate`, `trade` and `r0_net` has exactly those columns. |
| Pipeline.OneRecordColumns | scripts/download_sina_fundflow_test.py:94 | A one-record table with exactly those fields has `opendate`, and keeps those three columns. |
| Pipeline.OneRecordOutcome | scripts/download_sina_fundflow_test.py:91-109 | Such a table cleans to that record's row under those three columns and `code`. |
| Pipeline.ThreeHeader | scripts/download_sina_fundflow_test.py:99-108 | Its header is `date, close, main_net_flow, code`. |
| Pipeline.OneRecordScenario | scripts/download_sina_fundflow_test.py:89-109 | One record `{opendate, trade, r0_net}` whose values parse cleans to header `date, close, main_net_flow, code`, with the parsed date, close and main net flow and the stock code. |
| Pipeline.CleanRowOfThreeBadDate | scripts/download_sina_fundflow_test.py:103-108 | If `opendate` does not parse, the row keeps a null date and the parsed numbers. |
| Pipeline.BadDateScenario | scripts/download_sina_fundflow_test.py:103-105 | A date that does not parse is kept as a null date rather than failing or dropping the row. The other fields are still parsed. |

## Left out

- The HTTP request, the headers, the 30-second timeout, `raise_for_status`, GBK decoding and JSON parsing (lines 45-50) are not modelled. They are replaced by a script of page outcomes, so the URL's constant query parameters (`sort=opendate`, `asc=0`) are not part of `Request`.
- A JSON body that is neither a list nor null (line 52) is not modelled; every page is a list of records or a failure.
- The progress bar and the `total_pages` guess (lines 38, 43, 59-70) are not modelled, because they only affect display.
- `time.sleep(0.3)` between pages (line 76) is not modelled, because the model has no clock.
- All `print` output is not modelled: the progress messages, the row and column counts at line 86, and the summary at lines 129-131.
- `os.makedirs` (line 12) and the Parquet and CSV writes with their error handling (lines 111-127) are not modelled, because they are file I/O. The model ends at the sorted table.
- `main` (lines 134-152) is not modelled. It only chains the two steps, which `Pipeline` does at the level of lemmas.
- The history is a finite script: every page past its end is empty. A server that answers full pages forever, on which the source would loop forever, is not represented.
- Raw values are modelled as strings only. The values the API sends as JSON numbers are not distinguished.
- `pd.to_datetime` infers one format for a whole column. The model's date parser works on each value independently, so any format inference across values is not represented.
- Numbers are exact decimals, not floating point, so float rounding is not modelled.
- DateSort.SortByDate: `sort_values` is not stable, so only sortedness and permutation are promised. The model's insertion order is one valid outcome, and the relative order of rows with equal dates in the source is not captured.
- The `reset_index` at line 109 only renumbers rows. Rows are modelled as a sequence, so it needs no modelling.
