/** The MyPnL ledger: formatting an aggregated trade as a ledger record (`format_for_mypnl`),
    the anti-join against the existing ledger (`check_for_new_trades`), and the write of the
    new rows (`save_new_trades`). */
module Ledger {
  import opened Common
  import opened Text
  import opened Aggregation

  datatype TradeType = Buy | Sell

  /** One ledger row, in the column order `format_for_mypnl` builds it. The four enrichment
      columns are always null here and are filled in downstream. */
  datatype LedgerRecord = LedgerRecord(
    symbol: string,
    tradeType: TradeType,
    entryPrice: Option<int>,
    exitPrice: Option<int>,
    lotSize: nat,
    pnl: int,
    closedAt: string,
    openedAt: string,
    strategy: Option<string>,
    notes: string,
    stopLoss: Option<int>,
    targetPrice: Option<int>,
    commission: Option<int>)

  /** The signed size a record encodes: negative for a sell. */
  function SignedSize(r: LedgerRecord): int {
    if r.tradeType == Sell then -(r.lotSize as int) else r.lotSize
  }

  /** `format_for_mypnl`; `fmt` stands for `strftime('%Y.%m.%d %H:%M:%S')`. */
  function Format(tr: Trade, fmt: int -> string): (r: LedgerRecord)
    ensures r.tradeType == Sell <==> tr.size < 0
    ensures r.lotSize == if tr.size < 0 then -tr.size else tr.size
    ensures SignedSize(r) == tr.size
    ensures r.symbol == Upper(tr.instrumentName)
    ensures r.strategy.None? && r.stopLoss.None? && r.targetPrice.None? && r.commission.None?
    ensures r.notes == tr.reference && r.pnl == tr.profitAndLoss
    ensures r.entryPrice == tr.openLevel && r.exitPrice == tr.closeLevel
    ensures r.closedAt == fmt(tr.dateUtc) && r.openedAt == fmt(tr.openDateUtc)
  {
    var tradeType := if tr.size < 0 then Sell else Buy;
    var lot := if tr.size < 0 then -tr.size else tr.size;
    LedgerRecord(Upper(tr.instrumentName), tradeType, tr.openLevel, tr.closeLevel, lot,
                 tr.profitAndLoss, fmt(tr.dateUtc), fmt(tr.openDateUtc), None, tr.reference,
                 None, None, None)
  }

  /** `df_combined.apply(format_for_mypnl, axis=1)`. */
  function FormatAll(trades: seq<Trade>, fmt: int -> string): (records: seq<LedgerRecord>)
    ensures |records| == |trades|
    ensures forall i :: 0 <= i < |trades| ==> records[i] == Format(trades[i], fmt)
    // record by record, the signed size and the profit and loss are the trade's
    ensures forall i :: 0 <= i < |trades| ==> SignedSize(records[i]) == trades[i].size && records[i].pnl == trades[i].profitAndLoss
  {
    seq(|trades|, i requires 0 <= i < |trades| => Format(trades[i], fmt))
  }

  function RecordPnl(r: LedgerRecord): int {
    r.pnl
  }

  /** Formatting keeps the totals: the signed lot sizes add up to the trades' sizes and the
      ledger profit and loss to the trades' profit and loss. */
  lemma {:induction false} FormatAllTotals(trades: seq<Trade>, fmt: int -> string)
    ensures Sum(FormatAll(trades, fmt), SignedSize) == Sum(trades, TradeSize)
    ensures Sum(FormatAll(trades, fmt), RecordPnl) == Sum(trades, TradePnl)
    decreases |trades|
  {
    if |trades| > 0 {
      var init := trades[..|trades| - 1];
      var records := FormatAll(trades, fmt);
      assert records[..|records| - 1] == FormatAll(init, fmt);
      FormatAllTotals(init, fmt);
    }
  }

  /** A cell of the CSV ledger. */
  datatype Cell = Null | Str(s: string) | Num(n: int)

  /** The header `format_for_mypnl` produces, in order. */
  const LedgerColumns: seq<string> := [
    "symbol", "trade_type", "entry_price", "exit_price", "lot_size", "pnl", "closed_at",
    "opened_at", "strategy", "notes", "stop_loss", "target_price", "commission"]

  function NumCell(o: Option<int>): Cell {
    match o
    case None => Null
    case Some(n) => Num(n)
  }

  function StrCell(o: Option<string>): Cell {
    match o
    case None => Null
    case Some(s) => Str(s)
  }

  function TradeTypeText(t: TradeType): string {
    match t
    case Buy => "buy"
    case Sell => "sell"
  }

  /** A record's cells under `LedgerColumns`, in that order. */
  function FullRow(r: LedgerRecord): (row: seq<Cell>)
    ensures |row| == |LedgerColumns|
  {
    [Str(r.symbol), Str(TradeTypeText(r.tradeType)), NumCell(r.entryPrice), NumCell(r.exitPrice),
     Num(r.lotSize), Num(r.pnl), Str(r.closedAt), Str(r.openedAt), StrCell(r.strategy), Str(r.notes),
     NumCell(r.stopLoss), NumCell(r.targetPrice), NumCell(r.commission)]
  }

  /** No column name is repeated in the header. */
  lemma LedgerColumnsDistinct()
    ensures Distinct(LedgerColumns)
  {
    forall i, j | 0 <= i < j < |LedgerColumns|
      ensures LedgerColumns[i] != LedgerColumns[j]
    {
      assert LedgerColumns[i][0] != LedgerColumns[j][0] || |LedgerColumns[i]| != |LedgerColumns[j]|;
    }
  }

  /** The cell filed under `col` in a header and a row of equal width. */
  function Lookup(names: seq<string>, cells: seq<Cell>, col: string): (c: Option<Cell>)
    requires |names| == |cells|
    ensures c.Some? <==> col in names
    decreases |names|
  {
    if |names| == 0 then None
    else if names[0] == col then Some(cells[0])
    else Lookup(names[1..], cells[1..], col)
  }

  /** Under a header without repeats, each name finds the cell at its own position. */
  lemma {:induction false} LookupDistinct(names: seq<string>, cells: seq<Cell>, j: nat)
    requires |names| == |cells| && j < |names|
    requires Distinct(names)
    ensures Lookup(names, cells, names[j]) == Some(cells[j])
    decreases |names|
  {
    if j > 0 {
      assert names[0] != names[j];
      assert Distinct(names[1..]);
      LookupDistinct(names[1..], cells[1..], j - 1);
    }
  }

  /** The value of column `col` of a record; `None` when the record has no such column. */
  function Field(r: LedgerRecord, col: string): (c: Option<Cell>)
    ensures c.Some? <==> col in LedgerColumns
  {
    Lookup(LedgerColumns, FullRow(r), col)
  }

  predicate KnownColumns(cols: seq<string>) {
    forall i :: 0 <= i < |cols| ==> cols[i] in LedgerColumns
  }

  /** `df_formatted[cols]` for one record. */
  function Row(r: LedgerRecord, cols: seq<string>): (row: seq<Cell>)
    requires KnownColumns(cols)
    ensures |row| == |cols|
    ensures forall j :: 0 <= j < |cols| ==> Some(row[j]) == Field(r, cols[j])
  {
    seq(|cols|, j requires 0 <= j < |cols| => Field(r, cols[j]).value)
  }

  /** `df_formatted[cols]`: every record projected onto `cols`. */
  function Project(records: seq<LedgerRecord>, cols: seq<string>): (rows: seq<seq<Cell>>)
    requires KnownColumns(cols)
    ensures |rows| == |records|
    ensures forall i :: 0 <= i < |records| ==> rows[i] == Row(records[i], cols)
    // each row has one cell per selected column, holding that column's field of its record
    ensures forall i :: 0 <= i < |records| ==> |rows[i]| == |cols|
    ensures forall i, j :: 0 <= i < |records| && 0 <= j < |cols| ==> Some(rows[i][j]) == Field(records[i], cols[j])
  {
    seq(|records|, i requires 0 <= i < |records| => Row(records[i], cols))
  }

  /** Whether a cell can hold an optional number, an optional string. */
  predicate NumOrNull(c: Cell) { c.Null? || c.Num? }
  predicate StrOrNull(c: Cell) { c.Null? || c.Str? }

  /** Reads a full-width row back into a record. */
  function RecordOfRow(row: seq<Cell>): Option<LedgerRecord> {
    if && |row| == |LedgerColumns|
       && row[0].Str? && row[1].Str? && (row[1].s == "buy" || row[1].s == "sell")
       && NumOrNull(row[2]) && NumOrNull(row[3]) && row[4].Num? && row[4].n >= 0 && row[5].Num?
       && row[6].Str? && row[7].Str? && StrOrNull(row[8]) && row[9].Str?
       && NumOrNull(row[10]) && NumOrNull(row[11]) && NumOrNull(row[12])
    then
      Some(LedgerRecord(row[0].s, if row[1].s == "sell" then Sell else Buy, NumOf(row[2]), NumOf(row[3]),
                        row[4].n, row[5].n, row[6].s, row[7].s, StrOf(row[8]), row[9].s,
                        NumOf(row[10]), NumOf(row[11]), NumOf(row[12])))
    else None
  }

  function NumOf(c: Cell): Option<int> {
    if c.Num? then Some(c.n) else None
  }

  function StrOf(c: Cell): Option<string> {
    if c.Str? then Some(c.s) else None
  }

  /** Projecting onto the formatter's own header gives the full row. */
  lemma {:induction false} RowOnLedgerColumns(r: LedgerRecord)
    ensures Row(r, LedgerColumns) == FullRow(r)
  {
    LedgerColumnsDistinct();
    forall j | 0 <= j < |LedgerColumns|
      ensures Row(r, LedgerColumns)[j] == FullRow(r)[j]
    {
      LookupDistinct(LedgerColumns, FullRow(r), j);
    }
  }

  /** A full-width row loses nothing: it reads back as the record it came from. */
  lemma {:induction false} RowRoundTrip(r: LedgerRecord)
    ensures RecordOfRow(Row(r, LedgerColumns)) == Some(r)
  {
    RowOnLedgerColumns(r);
    ReadFullRow(r);
  }

  lemma ReadFullRow(r: LedgerRecord)
    ensures RecordOfRow(FullRow(r)) == Some(r)
  {
  }

  /** A ledger as read from or written to CSV: a header and rows of cells. */
  datatype Table = Table(columns: seq<string>, rows: seq<seq<Cell>>)

  /** `DataFrame.empty`: no rows or no columns. */
  predicate IsEmpty(t: Table) {
    |t.columns| == 0 || |t.rows| == 0
  }

  /** What selecting the ledger's columns from the formatted frame raises. */
  datatype ReconcileError = MissingColumn(name: string)

  /** The first ledger column the formatted records do not have. */
  function FirstUnknownColumn(cols: seq<string>): (r: Option<string>)
    ensures r.None? <==> KnownColumns(cols)
    ensures r.Some? ==> r.value in cols && r.value !in LedgerColumns
    decreases |cols|
  {
    if |cols| == 0 then None
    else if cols[0] !in LedgerColumns then Some(cols[0])
    else
      var rest := FirstUnknownColumn(cols[1..]);
      assert forall i :: 0 < i < |cols| ==> cols[i] == cols[1..][i - 1];
      rest
  }

  /** The rows of `rows` that match no row of `existing` on every column. */
  function AntiJoin(rows: seq<seq<Cell>>, existing: seq<seq<Cell>>): (r: seq<seq<Cell>>)
    // in input order, a sub-multiset of the rows
    ensures IsSubsequence(r, rows)
    ensures multiset(r) <= multiset(rows)
    // no row kept equals a row of `existing`
    ensures forall i :: 0 <= i < |r| ==> r[i] !in existing
    // every row that equals no row of `existing` is kept, as often as it occurs
    ensures forall i :: 0 <= i < |rows| && rows[i] !in existing ==> multiset(r)[rows[i]] == multiset(rows)[rows[i]]
  {
    var r := Filter(rows, (row: seq<Cell>) => row !in existing);
    assert multiset(r) <= multiset(rows) by {
      forall x
        ensures multiset(r)[x] <= multiset(rows)[x]
      {
      }
    }
    r
  }

  /** `check_for_new_trades`: with no ledger, or an empty one, every formatted record is new;
      otherwise the formatted records are projected onto the ledger's columns and those
      projections that equal no ledger row are new. */
  function Reconcile(formatted: seq<LedgerRecord>, ledger: Option<Table>): (r: Result<Table, ReconcileError>)
    // bootstrap: everything is new, with the formatter's own columns
    ensures ledger.None? || IsEmpty(ledger.value) ==>
              r == Ok(Table(LedgerColumns, Project(formatted, LedgerColumns)))
    // a ledger column the formatter does not produce raises
    ensures ledger.Some? && !IsEmpty(ledger.value) ==>
              (r.Err? <==> exists c :: c in ledger.value.columns && c !in LedgerColumns)
    ensures ledger.Some? && !IsEmpty(ledger.value) && r.Ok? ==>
              var cols, existing := ledger.value.columns, ledger.value.rows;
              var projected := Project(formatted, cols);
              && r.value.columns == cols
              // in input order, a sub-multiset of the projected records
              && IsSubsequence(r.value.rows, projected)
              && multiset(r.value.rows) <= multiset(projected)
              // no new row equals a ledger row
              && (forall i :: 0 <= i < |r.value.rows| ==> r.value.rows[i] !in existing)
              // every projected record that equals no ledger row is new, as often as it occurs
              && (forall i :: 0 <= i < |projected| && projected[i] !in existing ==>
                    multiset(r.value.rows)[projected[i]] == multiset(projected)[projected[i]])
  {
    if ledger.None? || IsEmpty(ledger.value) then
      Ok(Table(LedgerColumns, Project(formatted, LedgerColumns)))
    else
      match FirstUnknownColumn(ledger.value.columns)
      case Some(c) => Err(MissingColumn(c))
      case None =>
        var cols := ledger.value.columns;
        var projected := Project(formatted, cols);
        Ok(Table(cols, AntiJoin(projected, ledger.value.rows)))
  }

  /** `save_new_trades` as written: when there are new rows, the ledger file is replaced by
      exactly those rows; otherwise it is left alone. */
  function PersistAsWritten(ledger: Option<Table>, delta: Table): (r: Option<Table>)
    ensures |delta.rows| == 0 ==> r == ledger
    ensures |delta.rows| > 0 ==> r == Some(delta)
    // new rows: every ledger row that is not itself new is lost
    ensures ledger.Some? && |delta.rows| > 0 ==>
              r.Some? && forall row :: row in ledger.value.rows && row !in delta.rows ==> row !in r.value.rows
    ensures |delta.rows| > 0 ==> |r.value.rows| == |delta.rows|
  {
    if |delta.rows| > 0 then Some(delta) else ledger
  }

  /** `save_new_trades` corrected: the new rows are appended to the rows already in the ledger.
      With no ledger, or an empty one, the new table becomes the ledger. */
  function Persist(ledger: Option<Table>, delta: Table): (r: Option<Table>)
    // no new rows: the file is untouched
    ensures |delta.rows| == 0 ==> r == ledger
    // new rows: every one of them is in the ledger afterwards
    ensures |delta.rows| > 0 ==> r.Some? && forall row :: row in delta.rows ==> row in r.value.rows
    // and a non-empty ledger keeps its header and all its rows, in front
    ensures ledger.Some? && !IsEmpty(ledger.value) ==>
              && r.Some? && r.value.columns == ledger.value.columns
              && |ledger.value.rows| <= |r.value.rows|
              && r.value.rows[..|ledger.value.rows|] == ledger.value.rows
              // followed by exactly the new rows, once each
              && r.value.rows[|ledger.value.rows|..] == delta.rows
    ensures (ledger.None? || IsEmpty(ledger.value)) && |delta.rows| > 0 ==> r == Some(delta)
  {
    if |delta.rows| == 0 then ledger
    else if ledger.None? || IsEmpty(ledger.value) then Some(delta)
    else
      var rows := ledger.value.rows + delta.rows;
      assert rows[..|ledger.value.rows|] == ledger.value.rows;
      assert rows[|ledger.value.rows|..] == delta.rows;
      Some(Table(ledger.value.columns, rows))
  }

  /** Ledger `written` holds, under its own header, the row of every record of `formatted`. */
  predicate HoldsAll(written: Option<Table>, formatted: seq<LedgerRecord>) {
    |formatted| > 0 ==>
      && written.Some? && KnownColumns(written.value.columns)
      && forall i :: 0 <= i < |formatted| ==> Row(formatted[i], written.value.columns) in written.value.rows
  }

  /** The corrected write records every formatted record: afterwards the ledger has a row for
      each of them, whether it was bootstrapped or appended to. */
  lemma PersistHoldsAll(formatted: seq<LedgerRecord>, ledger: Option<Table>)
    requires Reconcile(formatted, ledger).Ok?
    ensures HoldsAll(Persist(ledger, Reconcile(formatted, ledger).value), formatted)
  {
    if ledger.None? || IsEmpty(ledger.value) {
      if |formatted| > 0 {
        var delta := Reconcile(formatted, ledger).value;
        assert KnownColumns(LedgerColumns);
        assert delta.rows == Project(formatted, LedgerColumns);
        assert Persist(ledger, delta) == Some(delta);
      }
    } else {
      var written := AppendWritesAll(formatted, ledger.value);
      assert FirstUnknownColumn(ledger.value.columns).None?;
    }
  }

  /** No formatted record is new to `ledger`: there are none at all, or the ledger is
      non-empty and every record's projection onto its header is already one of its rows. */
  predicate NothingNew(formatted: seq<LedgerRecord>, ledger: Option<Table>) {
    || |formatted| == 0
    || (&& ledger.Some? && !IsEmpty(ledger.value) && KnownColumns(ledger.value.columns)
        && forall i :: 0 <= i < |formatted| ==> Row(formatted[i], ledger.value.columns) in ledger.value.rows)
  }

  /** `delta` is what `check_for_new_trades` reports for `formatted` against `ledger`: every
      record under the formatter's header on a bootstrap; otherwise, under the ledger's header,
      projections of the records in their order, none of them a ledger row, and every
      projection that is not a ledger row among them, as often as it occurs. */
  predicate NewRowsOf(delta: Table, formatted: seq<LedgerRecord>, ledger: Option<Table>) {
    if ledger.None? || IsEmpty(ledger.value) then
      KnownColumns(LedgerColumns) && delta == Table(LedgerColumns, Project(formatted, LedgerColumns))
    else
      var cols, existing := ledger.value.columns, ledger.value.rows;
      && KnownColumns(cols)
      && delta.columns == cols
      && IsSubsequence(delta.rows, Project(formatted, cols))
      && (forall i :: 0 <= i < |delta.rows| ==> delta.rows[i] !in existing)
      && (forall i :: 0 <= i < |formatted| && Row(formatted[i], cols) !in existing ==> Row(formatted[i], cols) in delta.rows)
      // each new projection as often as it occurs among the records
      && (forall i :: 0 <= i < |formatted| && Row(formatted[i], cols) !in existing ==>
            multiset(delta.rows)[Row(formatted[i], cols)] == multiset(Project(formatted, cols))[Row(formatted[i], cols)])
  }

  /** What reconciliation reports is the new rows, and it reports none exactly when nothing
      is new. */
  lemma ReconcileNewRows(formatted: seq<LedgerRecord>, ledger: Option<Table>)
    requires Reconcile(formatted, ledger).Ok?
    ensures NewRowsOf(Reconcile(formatted, ledger).value, formatted, ledger)
    ensures |Reconcile(formatted, ledger).value.rows| == 0 <==> NothingNew(formatted, ledger)
  {
    var delta := Reconcile(formatted, ledger).value;
    if ledger.None? || IsEmpty(ledger.value) {
      assert KnownColumns(LedgerColumns);
    } else {
      assert FirstUnknownColumn(ledger.value.columns).None?;
      var cols, existing := ledger.value.columns, ledger.value.rows;
      var projected := Project(formatted, cols);
      forall i | 0 <= i < |formatted| && Row(formatted[i], cols) !in existing
        ensures Row(formatted[i], cols) in delta.rows
      {
        AntiJoinKeeps(projected, existing, i);
      }
      if NothingNew(formatted, ledger) {
        AntiJoinNone(projected, existing);
      }
    }
  }

  /** Rows that all equal some row of `existing` leave nothing new. */
  lemma AntiJoinNone(rows: seq<seq<Cell>>, existing: seq<seq<Cell>>)
    requires forall i :: 0 <= i < |rows| ==> rows[i] in existing
    ensures AntiJoin(rows, existing) == []
  {
    FilterNone(rows, (row: seq<Cell>) => row !in existing);
  }

  /** A row that equals no row of `existing` is among the new rows. */
  lemma AntiJoinKeeps(rows: seq<seq<Cell>>, existing: seq<seq<Cell>>, i: nat)
    requires i < |rows| && rows[i] !in existing
    ensures rows[i] in AntiJoin(rows, existing)
  {
    assert multiset(AntiJoin(rows, existing))[rows[i]] > 0;
  }

  /** Every row is either already present or among the new rows. */
  lemma AntiJoinCovers(rows: seq<seq<Cell>>, existing: seq<seq<Cell>>)
    ensures forall i :: 0 <= i < |rows| ==> rows[i] in existing + AntiJoin(rows, existing)
  {
    forall i | 0 <= i < |rows|
      ensures rows[i] in existing + AntiJoin(rows, existing)
    {
      if rows[i] !in existing {
        AntiJoinKeeps(rows, existing, i);
      }
    }
  }

  /** After a bootstrap write, the formatted records are all in the ledger. */
  lemma RerunAfterBootstrap(formatted: seq<LedgerRecord>, ledger: Option<Table>)
    requires ledger.None? || IsEmpty(ledger.value)
    requires |formatted| > 0
    ensures var written := Persist(ledger, Reconcile(formatted, ledger).value);
            Reconcile(formatted, written).Ok? && |Reconcile(formatted, written).value.rows| == 0
  {
    var delta := Reconcile(formatted, ledger).value;
    var written := Persist(ledger, delta);
    assert written == Some(delta);
    assert KnownColumns(LedgerColumns);
    var projected := Project(formatted, LedgerColumns);
    assert delta.rows == projected;
    assert !IsEmpty(delta);
    AntiJoinNone(projected, projected);
  }

  /** The append: the file holds the old rows followed by the new ones, and every projected
      record is among them. */
  lemma {:induction false} AppendWritesAll(formatted: seq<LedgerRecord>, ledger: Table) returns (written: Table)
    requires !IsEmpty(ledger)
    requires Reconcile(formatted, Some(ledger)).Ok?
    ensures Persist(Some(ledger), Reconcile(formatted, Some(ledger)).value) == Some(written)
    ensures written.columns == ledger.columns && !IsEmpty(written)
    ensures forall i :: 0 <= i < |formatted| ==> Row(formatted[i], ledger.columns) in written.rows
  {
    var cols := ledger.columns;
    assert FirstUnknownColumn(cols).None?;
    var projected := Project(formatted, cols);
    var delta := AntiJoin(projected, ledger.rows);
    assert Reconcile(formatted, Some(ledger)) == Ok(Table(cols, delta));
    var all := if |delta| == 0 then ledger.rows else ledger.rows + delta;
    written := Table(cols, all);
    AntiJoinCovers(projected, ledger.rows);
    assert forall i :: 0 <= i < |formatted| ==> projected[i] in all;
  }

  /** Reconciling against a ledger that already holds every projected record finds nothing. */
  lemma NothingNewWhenAllPresent(formatted: seq<LedgerRecord>, ledger: Table)
    requires !IsEmpty(ledger) && KnownColumns(ledger.columns)
    requires forall i :: 0 <= i < |formatted| ==> Row(formatted[i], ledger.columns) in ledger.rows
    ensures Reconcile(formatted, Some(ledger)).Ok?
    ensures |Reconcile(formatted, Some(ledger)).value.rows| == 0
  {
    var cols := ledger.columns;
    assert FirstUnknownColumn(cols).None?;
    var projected := Project(formatted, cols);
    assert Reconcile(formatted, Some(ledger)) == Ok(Table(cols, AntiJoin(projected, ledger.rows)));
    AntiJoinNone(projected, ledger.rows);
  }

  /** After an append, reconciling again finds nothing new. */
  lemma RerunAfterAppend(formatted: seq<LedgerRecord>, ledger: Table)
    requires !IsEmpty(ledger)
    requires Reconcile(formatted, Some(ledger)).Ok?
    ensures var written := Persist(Some(ledger), Reconcile(formatted, Some(ledger)).value);
            Reconcile(formatted, written).Ok? && |Reconcile(formatted, written).value.rows| == 0
  {
    var written := AppendWritesAll(formatted, ledger);
    assert FirstUnknownColumn(ledger.columns).None?;
    NothingNewWhenAllPresent(formatted, written);
  }

  /** With the corrected write, reconciling the same formatted records against the ledger just
      written finds nothing new: a re-run over the same window adds no rows. */
  lemma RerunFindsNothingNew(formatted: seq<LedgerRecord>, ledger: Option<Table>)
    requires Reconcile(formatted, ledger).Ok?
    ensures var written := Persist(ledger, Reconcile(formatted, ledger).value);
            Reconcile(formatted, written).Ok? && |Reconcile(formatted, written).value.rows| == 0
  {
    if ledger.None? || IsEmpty(ledger.value) {
      if |formatted| == 0 {
        assert |Reconcile(formatted, ledger).value.rows| == 0;
      } else {
        RerunAfterBootstrap(formatted, ledger);
      }
    } else {
      RerunAfterAppend(formatted, ledger.value);
    }
  }

  /** `save_new_trades` replaces the file with the new rows. So a ledger holding trade A,
      reconciled against a fetch that returns A and a new trade B, is overwritten with B alone;
      re-running over the same window then reports A as new again, and no row of the original
      ledger survives. */
  lemma OverwriteReexports(formatted: seq<LedgerRecord>, ledger: Table, a: nat, b: nat)
    requires !IsEmpty(ledger) && KnownColumns(ledger.columns)
    requires a < |formatted| && b < |formatted|
    requires Row(formatted[a], ledger.columns) in ledger.rows
    requires Row(formatted[b], ledger.columns) !in ledger.rows
    ensures var delta := Reconcile(formatted, Some(ledger)).value;
            var written := PersistAsWritten(Some(ledger), delta);
            && written.Some?
            && (forall row :: row in ledger.rows ==> row !in written.value.rows)
            && Reconcile(formatted, written).Ok?
            && Row(formatted[a], ledger.columns) in Reconcile(formatted, written).value.rows
  {
    var delta := OverwriteWritesDelta(formatted, ledger, b);
    OverwriteRereports(formatted, delta, a, ledger.rows);
  }

  /** The overwrite: the file ends up holding exactly the non-empty delta. */
  lemma {:induction false} OverwriteWritesDelta(formatted: seq<LedgerRecord>, ledger: Table, b: nat) returns (delta: Table)
    requires !IsEmpty(ledger) && KnownColumns(ledger.columns)
    requires b < |formatted|
    requires Row(formatted[b], ledger.columns) !in ledger.rows
    ensures Reconcile(formatted, Some(ledger)) == Ok(delta)
    ensures PersistAsWritten(Some(ledger), delta) == Some(delta) && !IsEmpty(delta)
    ensures delta.columns == ledger.columns
    ensures forall row :: row in delta.rows ==> row !in ledger.rows
  {
    var cols := ledger.columns;
    assert FirstUnknownColumn(cols).None?;
    var projected := Project(formatted, cols);
    delta := Table(cols, AntiJoin(projected, ledger.rows));
    AntiJoinKeeps(projected, ledger.rows, b);
  }

  /** Re-running against the overwritten file: a record not in it is reported again. */
  lemma OverwriteRereports(formatted: seq<LedgerRecord>, delta: Table, a: nat, oldRows: seq<seq<Cell>>)
    requires !IsEmpty(delta) && KnownColumns(delta.columns)
    requires a < |formatted|
    requires Row(formatted[a], delta.columns) in oldRows
    requires forall row :: row in delta.rows ==> row !in oldRows
    ensures Reconcile(formatted, Some(delta)).Ok?
    ensures Row(formatted[a], delta.columns) in Reconcile(formatted, Some(delta)).value.rows
  {
    var cols := delta.columns;
    assert FirstUnknownColumn(cols).None?;
    var projected := Project(formatted, cols);
    assert Reconcile(formatted, Some(delta)) == Ok(Table(cols, AntiJoin(projected, delta.rows)));
    AntiJoinKeeps(projected, delta.rows, a);
  }
}
