# PnL_Tracker trade fetcher, modelled in Dafny

`fetch_ig_trades.py` pulls the trade history of an IG brokerage account and keeps a CSV
ledger for the MyPnL journal up to date. This project models what happens between the HTTP
fetch and the file write. The stages are:

1. **Deal filter.** Only records of type `DEAL` are kept (`get_transactions`).
2. **Cleaning** (`clean_df`). Numeric columns are coerced, and the pound sign is stripped
   before the profit and loss is parsed. Instrument names are canonicalised by `map_symbol`,
   which tries the alias table in three tiers: exact, case-insensitive, then prefix. The
   rows are sorted newest first.
3. **Aggregation.** Partial closes of one position are combined
   (`format_df_for_mypnl`'s group-by and `combine_trades`). Rows are grouped by
   (open time, instrument name). Each group becomes one trade: sizes and profit and loss are
   summed, the reference ids are de-duplicated and joined with `"; "`, and every other column
   comes from the group's newest row.
4. **Formatting** (`format_for_mypnl`). Each trade becomes a MyPnL ledger record. The side
   comes from the sign of the size, the lot size is the absolute size, the symbol is
   upper-cased, and the four enrichment columns are null.
5. **Reconciliation** (`check_for_new_trades`). With no ledger, or an empty one, every
   record is new. Otherwise the records are projected onto the ledger's columns, and those
   projections that equal no ledger row are new. This is an anti-join. A ledger column the
   formatter does not produce raises.
6. **Persistence** (`save_new_trades`) and the driver's sequencing of the stages (`main` in
   `driver.py`).

The files follow those stages:

| file | module | contents |
|---|---|---|
| `common.dfy` | `Common` | `Option`, `Result`, order-preserving filter, sums, first-seen de-duplication |
| `text.dfy` | `Text` | upper-casing, `startswith`, character removal, the `"; "` join and its inverse |
| `symbols.dfy` | `Symbols` | the alias table and the three-tier canonicalisation |
| `transactions.dfy` | `Transactions` | raw and cleaned deal records, the deal filter, `clean_df` |
| `aggregation.dfy` | `Aggregation` | the group-by and `combine_trades` |
| `ledger.dfy` | `Ledger` | ledger records, CSV rows, reconciliation and persistence |
| `pipeline.dfy` | `Pipeline` | the stages composed into one run, and a worked example |

Parts of the run that depend on the outside world are abstracted:

- Timestamps are opaque integers ordered like time. The date formatter `strftime('%Y.%m.%d %H:%M:%S')` is a parameter `fmt: int -> string`.
- Amounts are fixed-point integers. The number parser (`pd.to_numeric` / `astype(float)`) is a parameter `parse: string -> Option<int>`, where `None` means the text is not a number.
- The fetched records are an input sequence.
- The ledger file is an input `Option<Table>`, where `None` means there is no file. The new file contents are the output.

Some behaviour of the code is easy to misread. The model follows the code as it stands:

- Rows without an instrument name are dropped by the group-by. This is pandas' default `dropna=True`.
- Groups come out in ascending (open time, instrument) order. This is pandas' default `sort=True`. Input order does not decide it.
- The comment "uppercase, replace spaces" in `format_for_mypnl` is only half implemented. The symbol is upper-cased and its spaces are kept.
- `save_new_trades` replaces the file with the new rows rather than appending them. Both behaviours are modelled; see Findings.

## Model

| member | source | states |
|---|---|---|
| Common.Filter | fetch_ig_trades.py:100 | boolean-mask selection keeps the elements that pass, in order, each exactly as often as in the input, and drops all others |
| Common.Unique | fetch_ig_trades.py:167 | `unique()` lists every distinct value once, nothing else, in order of first occurrence |
| Common.SumPermutation | fetch_ig_trades.py:160-161 | a column sum does not depend on row order |
| Common.FirstWhere | fetch_ig_trades.py:121-123 | finds the first element that fails a test; it finds none exactly when every element passes |
| Text.Upper | fetch_ig_trades.py:131 | `upper()` keeps the length, maps each character to upper case and leaves no lower-case letter |
| Text.RemoveChar | fetch_ig_trades.py:121-122 | `replace('£', '')` leaves no pound sign and keeps every other character, in order |
| Text.Join | fetch_ig_trades.py:167 | joining reference ids with `"; "` loses nothing when no id contains `;`: splitting the joined string gives back the ids |
| Text.JoinUniqueReadBack | fetch_ig_trades.py:166-167 | the de-duplicated ids, joined, read back as each distinct id once, in first-seen order |
| Symbols.FindMatch | fetch_ig_trades.py:136-143 | one tier's scan over the alias table returns the first entry whose key matches, or reports that none does |
| Symbols.Canonicalise | fetch_ig_trades.py:130-144 | an exact key match wins; failing that, the first case-insensitive match; failing that, the first key the upper-cased name starts with; otherwise the name is unchanged |
| Symbols.MapSymbol | fetch_ig_trades.py:127-146 | a null name stays null; any other name either passes through unchanged or becomes one of the table's two symbols, `NASDAQ` or `XAUUSD` |
| Symbols.SymbolMappingValuesFixed | fetch_ig_trades.py:108-111 | neither `NASDAQ` nor `XAUUSD` matches a key of the table under any tier |
| Symbols.CanonicaliseIdempotent | fetch_ig_trades.py:130-144 | for any table whose values map to themselves, canonicalising twice is canonicalising once |
| Symbols.MapSymbolIdempotent | fetch_ig_trades.py:127-146 | `map_symbol` is idempotent |
| Symbols.MapSymbolExamples | fetch_ig_trades.py:132-144 | one input per tier: `US Tech 100` maps to `NASDAQ` (exact), `Spot Gold` to `XAUUSD` (case-insensitive), `Spot Gold - Cash` to `XAUUSD` (prefix); `Wall Street` passes through and a null stays null |
| Transactions.DealsOnly | fetch_ig_trades.py:96-101 | keeps exactly the `DEAL` records, in order and with their multiplicities; an empty fetch gives nothing |
| Transactions.CleanRow | fetch_ig_trades.py:113-146 | one record cleaned: the instrument name comes out canonical, so mapping it again changes nothing, and it is either the original name or `NASDAQ`/`XAUUSD`; the profit and loss is parsed from text that holds no pound sign; the columns the cleaning does not touch are carried over |
| Transactions.CleanRows | fetch_ig_trades.py:113-146 | the column-wise cleaning gives one cleaned record per input record, in order; every cleaned name is canonical, and every profit and loss is its record's parsed text |
| Transactions.FirstBadPnl | fetch_ig_trades.py:121-123 | finds the first record whose profit and loss cannot be parsed; it finds none exactly when every record parses |
| Transactions.SortNewestFirst | fetch_ig_trades.py:148-149 | the result is a permutation of the input, ordered by close time with the newest first |
| Transactions.Clean | fetch_ig_trades.py:103-150 | `clean_df` fails exactly when some profit and loss does not parse, and the error carries that text; otherwise it returns every cleaned record once, newest first |
| Transactions.SubsequenceNewestFirst | fetch_ig_trades.py:163-164 | a selection of newest-first rows that keeps their order is itself newest first |
| Aggregation.GroupBy | fetch_ig_trades.py:219-221 | groups have strictly increasing keys and are non-empty; the keys are exactly those of rows with an instrument name |
| Aggregation.GroupByRows | fetch_ig_trades.py:219-221 | each group holds exactly the input rows with its key, in input order |
| Aggregation.GroupKeys | fetch_ig_trades.py:219-221 | the distinct keys of the rows, each once, in strictly ascending order |
| Aggregation.Combine | fetch_ig_trades.py:154-180 | `combine_trades` gives a trade with its group's key; for a group whose rows carry that key, the sizes and profits and losses are summed, the references de-duplicated and joined, and the other columns taken from the first row; references free of `;` read back in first-seen order |
| Aggregation.Aggregate | fetch_ig_trades.py:219-221 | there is one combined trade per distinct key of the input, and the i-th trade carries the i-th key in ascending order |
| Aggregation.AggregateCombinesGroups | fetch_ig_trades.py:154-180 | each trade sums the size and profit and loss of exactly the rows with its key, joins their de-duplicated references, and takes the other columns from the first of them |
| Aggregation.AggregateConservesTotals | fetch_ig_trades.py:159-161 | aggregation neither loses nor double-counts size or profit and loss across the named rows |
| Aggregation.GroupSumsIgnoreOrder | fetch_ig_trades.py:160-161 | the per-key sums are the same for any reordering of the input |
| Aggregation.LatestCloseWins | fetch_ig_trades.py:163-174 | on newest-first input, each trade's close time is the latest of its group |
| Aggregation.ReferencesReadBack | fetch_ig_trades.py:166-167 | a trade's reference string reads back as its group's distinct references, in first-seen order |
| Ledger.Format | fetch_ig_trades.py:182-211 | `sell` exactly when the size is negative; the lot size is the absolute size, so the signed lot equals the trade size; the symbol is upper-cased; the enrichment columns are null; the remaining fields are carried over |
| Ledger.FormatAll | fetch_ig_trades.py:222 | one ledger record per trade, in order; each record's signed size and profit and loss are its trade's |
| Ledger.FormatAllTotals | fetch_ig_trades.py:222 | formatting all trades keeps the signed size total and the profit and loss total |
| Ledger.Lookup | fetch_ig_trades.py:245 | a column can be selected exactly when its name is in the header |
| Ledger.FirstUnknownColumn | fetch_ig_trades.py:244-245 | finds a ledger column that the formatted records lack; it finds none exactly when all are known |
| Ledger.Project | fetch_ig_trades.py:245 | selecting the ledger's columns gives one row per record, with one cell per column holding that column's field of the record |
| Ledger.RowRoundTrip | fetch_ig_trades.py:197-211 | a record written under the formatter's header reads back as the same record |
| Ledger.AntiJoin | fetch_ig_trades.py:247-255 | the `left_only` rows are those equal to no ledger row, in order; every such row is kept as often as it occurs |
| Ledger.Reconcile | fetch_ig_trades.py:225-258 | with no ledger or an empty one, every record is new under the formatter's header; a ledger column the formatter lacks raises; otherwise the result is the anti-join of the projected records against the ledger |
| Ledger.ReconcileNewRows | fetch_ig_trades.py:225-258 | what `check_for_new_trades` returns is the new rows: every record under the formatter's header on a bootstrap; otherwise, under the ledger's header, projections of the records in order, none a ledger row, and every projection that is not a ledger row among them, as often as it occurs among the records. It returns none exactly when nothing is new |
| Ledger.PersistAsWritten | fetch_ig_trades.py:260-271 | `save_new_trades` as it stands: with no new rows the file is untouched; with new rows every ledger row that is not itself new is lost, and the file holds exactly as many rows as the new ones |
| Ledger.Persist | fetch_ig_trades.py:260-271 | `save_new_trades` with the corrected, appending write (see Findings): with no new rows the file is untouched; otherwise every new row is written, and a non-empty ledger keeps its header and all its rows in front, followed by exactly the new rows, each once |
| Ledger.PersistHoldsAll | fetch_ig_trades.py:225-271 | with the corrected write, reconciling and then writing leaves a row for every formatted record in the ledger, under the ledger's header, whether the file was bootstrapped or appended to |
| Ledger.RerunFindsNothingNew | fetch_ig_trades.py:225-271 | with the appending write, reconciling the same records again finds nothing new |
| Ledger.OverwriteReexports | fetch_ig_trades.py:260-271 | with the overwriting write, a ledger holding A reconciled against A and B becomes B alone; every old row is lost, and A is reported as new again |
| Pipeline.FormatForMyPnl | fetch_ig_trades.py:213-223 | `format_df_for_mypnl` gives one record per distinct (open time, instrument) key |
| Pipeline.FormatForMyPnlGroups | fetch_ig_trades.py:213-223 | the i-th record stands for the rows of the i-th key: its signed size and profit and loss are their sums, and its symbol and open time come from the key |
| Pipeline.FormatForMyPnlTotals | fetch_ig_trades.py:152-223 | the records' signed size and profit and loss totals equal those of every named cleaned row |
| Pipeline.NewRows | driver.py:77-85 | the stages up to `check_for_new_trades` fail in cleaning exactly when some deal's profit and loss does not parse, and in reconciliation exactly when everything parses and a non-empty ledger has a column the formatter does not produce; on success they return the new rows of the formatted records (as in `Ledger.ReconcileNewRows`), and none exactly when nothing is new |
| Pipeline.Process | driver.py:77-87 | with the corrected write: the same two failure conditions, each an if-and-only-if; on success the ledger holds a row for every formatted record, is untouched when nothing is new, and on a bootstrap with records is exactly the formatter's header with every record |
| Pipeline.Run | driver.py:73-87 | `main` with the corrected write: with no deals the ledger is untouched; the run fails in cleaning exactly when some `DEAL` record's profit and loss does not parse, and in reconciliation exactly when there is a deal, every deal parses, and a non-empty ledger has an unknown column; on success the ledger holds a row for every record formatted from the fetched deals, is untouched when nothing is new, and on a bootstrap with records is exactly the formatter's header with every record |
| Pipeline.RunAsWritten | driver.py:73-87 | `main` as it stands: with no deals the ledger is untouched; on success the ledger is untouched exactly when nothing is new, and otherwise the file is the new rows alone, each as often as it occurs among the records, so a non-empty ledger loses every row it had |
| Pipeline.OverwriteOutcome | fetch_ig_trades.py:260-271 | overwriting with what reconciliation returned leaves the ledger as it was when nothing is new, and otherwise writes exactly the new rows, repeats included, none of which was a ledger row |
| Pipeline.RunAsWrittenAgrees | driver.py:73-87 | the run as it stands and the corrected run fail together and with the same error, and give the same file when there was no ledger or an empty one |
| Pipeline.RunKeepsLedgerRows | driver.py:84-87 | with the corrected write, a successful run keeps a non-empty ledger's header and every row it had, in front |
| Pipeline.RunAddsOnlyNew | driver.py:84-87 | with the corrected write, what a successful run adds after a non-empty ledger's rows is a selection, in order, of the formatted records' projections, none of which the ledger held; when a deal was fetched, the added rows are exactly the new rows, each as often as it occurs |
| Pipeline.RunIdempotent | driver.py:73-87 | with the corrected write, running again over the same fetch leaves the ledger as the first run wrote it |
| Pipeline.PartialFillsCombine | fetch_ig_trades.py:152-211 | two partial closes of one position become one record: a buy of the combined size, the summed profit and loss, the newest close, and both references |

## Left out

- Authentication, session headers and paging of the history endpoint (`connect` and the request loop of `get_transactions`): network I/O. The fetched records are an input.
- The default date window (`from_date`/`to_date`) and the `driver.py` argument and environment-variable handling: configuration, not logic.
- Date parsing and formatting (`pd.to_datetime`, `strftime`): timestamps are opaque integers and the formatter is a parameter.
- Floating point: amounts are exact integers, and the text-to-number conversion is a parameter. Rounding is not modelled.
- Text.Upper: only ASCII letters are mapped, while Python's `str.upper` applies full Unicode case mapping.
- CSV reading and writing: the file is a table of typed cells. Type inference on reading, which can make a re-read cell differ from the written one, is not modelled. Neither is the error pandas raises on a zero-byte file.
- Transactions.SortNewestFirst: it is a stable sort. pandas' default quicksort may order records with equal close times either way, and the model fixes one order. Sums do not depend on it (`Aggregation.GroupSumsIgnoreOrder`). The copied columns of a combined trade can depend on it when two closes of one position share a timestamp.
- A fetch whose records lack an `instrumentName` column (the `if` at fetch_ig_trades.py:126): every record is modelled with the field, possibly null.
- Null profit and loss or reference values: the model gives every record a profit and loss text and a reference string.
- Ledger.Reconcile: when the group-by leaves no rows but a non-empty ledger exists, the formatted frame is empty but keeps the cleaned frame's columns, none of which is a ledger column, so selecting the ledger's columns raises `KeyError` in pandas. The model returns no new rows instead.
- Ledger.Reconcile: the merge on the shared columns raises `ValueError` when a key column has different types on the two sides, for example a `strategy` column filled in by hand as text in the ledger against the formatter's all-null column. Cells here are untyped, so the model returns the anti-join instead. This follows from pandas' merge rules; it is not stated in the code.
- Pipeline.Run: it uses the corrected, appending write, not the overwrite the code performs. The run as it stands is `Pipeline.RunAsWritten`; `Pipeline.RunKeepsLedgerRows`, `Pipeline.RunAddsOnlyNew` and `Pipeline.RunIdempotent` hold only for the corrected run.
- The progress messages and the suppression of pandas warnings: output only.
- The `dev/` wrapper that loads a `.env` file before calling `driver.py`: configuration.

## Findings

| source | as written | input that shows it | evidently intended | confidence | as-written member | corrected member |
|---|---|---|---|---|---|---|
| fetch_ig_trades.py:265-268 | when there are new rows, `save_new_trades` writes only them to the ledger path and replaces the file | the ledger holds trade A and the fetch returns A and a new trade B: the file becomes B alone. Re-running over the same window then reports A as new and replaces the file with A | append the new rows to the existing ledger, so history is kept and a re-run adds nothing | medium, not executed | Ledger.OverwriteReexports | Ledger.RerunFindsNothingNew |

The overwrite is modelled by `Ledger.PersistAsWritten`, and the whole run as it stands by `Pipeline.RunAsWritten`, which loses every row of a non-empty ledger whenever it writes. The corrected write, `Ledger.Persist`, appends the new rows, and `Pipeline.Run` uses it. `Pipeline.RunAsWrittenAgrees` shows the two runs differ only in what they do to an existing ledger. Under the corrected write, `Pipeline.RunKeepsLedgerRows`, `Pipeline.RunAddsOnlyNew` and `Pipeline.RunIdempotent` hold.
