/** One run of the fetcher, stage after stage: keep the deals, clean them, combine partial
    fills into trades, format them as ledger records, reconcile against the ledger and write
    the new rows. The HTTP fetch is an input; the date formatter and the number parser are
    parameters. */
module Pipeline {
  import opened Common
  import opened Text
  import opened Transactions
  import opened Aggregation
  import opened Ledger

  /** Why a run stops: the cleaning stage or the column selection raised. */
  datatype RunError = CleanFailed(clean: CleanError) | ReconcileFailed(reconcile: ReconcileError)

  /** Ledger record `record` stands for the cleaned rows of key `k`: its signed size and profit
      and loss are their sums, and its symbol and open time are the key's. */
  predicate StandsFor(record: LedgerRecord, cleaned: seq<Transaction>, k: Key, fmt: int -> string) {
    && k in RowKeys(cleaned)
    && SignedSize(record) == Sum(RowsWithKey(cleaned, k), SizeOrZero)
    && record.pnl == Sum(RowsWithKey(cleaned, k), Pnl)
    && record.symbol == Upper(k.instrumentName)
    && record.openedAt == fmt(k.openDateUtc)
  }

  /** The record formatted from the `i`-th trade stands for the rows of that trade's key. */
  lemma {:induction false} RecordOfGroup(cleaned: seq<Transaction>, fmt: int -> string, i: nat)
    requires i < |Aggregate(cleaned)|
    ensures StandsFor(Format(Aggregate(cleaned)[i], fmt), cleaned, TradeKey(Aggregate(cleaned)[i]), fmt)
  {
    var tr := Aggregate(cleaned)[i];
    AggregateCombinesGroups(cleaned);
    assert CombinesGroup(tr, TradeKey(tr), RowsWithKey(cleaned, TradeKey(tr)));
  }

  /** `format_df_for_mypnl`: one ledger record per (open time, instrument) group of the cleaned
      rows, in ascending key order. */
  function FormatForMyPnl(cleaned: seq<Transaction>, fmt: int -> string): (records: seq<LedgerRecord>)
    ensures |records| == |GroupKeys(cleaned)|
  {
    FormatAll(Aggregate(cleaned), fmt)
  }

  /** Each formatted record stands for the group of its key: it carries the group's summed
      size and profit and loss, and the key's instrument and open time. */
  lemma {:induction false} FormatForMyPnlGroups(cleaned: seq<Transaction>, fmt: int -> string)
    ensures forall i :: 0 <= i < |FormatForMyPnl(cleaned, fmt)| ==>
              StandsFor(FormatForMyPnl(cleaned, fmt)[i], cleaned, GroupKeys(cleaned)[i], fmt)
  {
    var trades := Aggregate(cleaned);
    var records := FormatForMyPnl(cleaned, fmt);
    forall i | 0 <= i < |records|
      ensures StandsFor(records[i], cleaned, GroupKeys(cleaned)[i], fmt)
    {
        RecordOfGroup(cleaned, fmt, i);
    }
  }

  /** Formatting conserves totals: the signed lot sizes and the profit and loss of the records
      add up to those of every cleaned row that has an instrument name. */
  lemma {:induction false} FormatForMyPnlTotals(cleaned: seq<Transaction>, fmt: int -> string)
    ensures Sum(FormatForMyPnl(cleaned, fmt), SignedSize) == Sum(Filter(cleaned, Named), SizeOrZero)
    ensures Sum(FormatForMyPnl(cleaned, fmt), RecordPnl) == Sum(Filter(cleaned, Named), Pnl)
  {
    AggregateConservesTotals(cleaned);
    FormatAllTotals(Aggregate(cleaned), fmt);
  }

  /** The deals kept are exactly the fetched records of type `DEAL`. */
  lemma DealsMembers(fetched: seq<RawTransaction>)
    ensures forall t :: t in DealsOnly(fetched) <==> t in fetched && IsDeal(t)
  {
    var deals := DealsOnly(fetched);
    forall t
      ensures t in deals <==> t in fetched && IsDeal(t)
    {
      assert t in deals <==> multiset(deals)[t] > 0;
      assert t in fetched <==> multiset(fetched)[t] > 0;
    }
  }

  /** A deal whose profit and loss does not parse is among the deals kept, and conversely. */
  lemma BadDealKept(fetched: seq<RawTransaction>, parse: string -> Option<int>)
    ensures (exists i :: 0 <= i < |DealsOnly(fetched)| && !PnlParses(DealsOnly(fetched)[i], parse)) <==>
            (exists i :: 0 <= i < |fetched| && IsDeal(fetched[i]) && !PnlParses(fetched[i], parse))
  {
    var deals := DealsOnly(fetched);
    if i :| 0 <= i < |deals| && !PnlParses(deals[i], parse) {
      var x := deals[i];
      assert multiset(deals)[x] > 0;
      assert x in multiset(fetched);
      var j :| 0 <= j < |fetched| && fetched[j] == x;
    }
    if j :| 0 <= j < |fetched| && IsDeal(fetched[j]) && !PnlParses(fetched[j], parse) {
      var x := fetched[j];
      assert multiset(fetched)[x] > 0;
      assert x in multiset(deals);
      var i :| 0 <= i < |deals| && deals[i] == x;
    }
  }


  /** Some fetched record is a deal. */
  predicate HasDeal(fetched: seq<RawTransaction>) {
    exists i :: 0 <= i < |fetched| && IsDeal(fetched[i])
  }

  /** Every profit and loss in `deals` parses. */
  predicate AllParse(deals: seq<RawTransaction>, parse: string -> Option<int>) {
    forall i :: 0 <= i < |deals| ==> PnlParses(deals[i], parse)
  }

  /** Every fetched deal's profit and loss parses. */
  predicate DealsParse(fetched: seq<RawTransaction>, parse: string -> Option<int>) {
    forall i :: 0 <= i < |fetched| && IsDeal(fetched[i]) ==> PnlParses(fetched[i], parse)
  }

  /** A non-empty ledger with a column the formatter does not produce. */
  predicate UnknownColumn(ledger: Option<Table>) {
    ledger.Some? && !IsEmpty(ledger.value) && exists c :: c in ledger.value.columns && c !in LedgerColumns
  }

  /** The stages between the deal filter and the write (`clean_df`, `format_df_for_mypnl`,
      `check_for_new_trades`); the first that raises ends the run. */
  function NewRows(deals: seq<RawTransaction>, ledger: Option<Table>, parse: string -> Option<int>, fmt: int -> string)
    : (r: Result<Table, RunError>)
    ensures r.Err? && r.error.CleanFailed? <==> !AllParse(deals, parse)
    ensures r.Err? && r.error.ReconcileFailed? <==> AllParse(deals, parse) && UnknownColumn(ledger)
    ensures r.Ok? ==> Clean(deals, parse).Ok?
    // on success: the new rows of the formatted records, and none exactly when nothing is new
    ensures r.Ok? ==> NewRowsOf(r.value, FormatForMyPnl(Clean(deals, parse).value, fmt), ledger)
    ensures r.Ok? ==> (|r.value.rows| == 0 <==> NothingNew(FormatForMyPnl(Clean(deals, parse).value, fmt), ledger))
  {
    match Clean(deals, parse)
    case Err(e) => Err(CleanFailed(e))
    case Ok(cleaned) =>
      var formatted := FormatForMyPnl(cleaned, fmt);
      match Reconcile(formatted, ledger)
      case Err(e) => Err(ReconcileFailed(e))
      case Ok(delta) =>
        ReconcileNewRows(formatted, ledger);
        Ok(delta)
  }

  /** The stages after the deal filter, ending with the corrected (appending) write. */
  function Process(deals: seq<RawTransaction>, ledger: Option<Table>, parse: string -> Option<int>, fmt: int -> string)
    : (r: Result<Option<Table>, RunError>)
    ensures r.Err? && r.error.CleanFailed? <==> !AllParse(deals, parse)
    ensures r.Err? && r.error.ReconcileFailed? <==> AllParse(deals, parse) && UnknownColumn(ledger)
    ensures r.Ok? ==> Clean(deals, parse).Ok?
    // on success the ledger holds a row for every formatted record
    ensures r.Ok? ==> HoldsAll(r.value, FormatForMyPnl(Clean(deals, parse).value, fmt))
    // nothing new leaves the ledger untouched; a bootstrap writes every record under the
    // formatter's header
    ensures r.Ok? && NothingNew(FormatForMyPnl(Clean(deals, parse).value, fmt), ledger) ==> r.value == ledger
    ensures r.Ok? && (ledger.None? || IsEmpty(ledger.value)) ==>
              var formatted := FormatForMyPnl(Clean(deals, parse).value, fmt);
              |formatted| > 0 ==> r.value == Some(Table(LedgerColumns, Project(formatted, LedgerColumns)))
  {
    match NewRows(deals, ledger, parse, fmt)
    case Err(e) => Err(e)
    case Ok(delta) =>
      PersistHoldsAll(FormatForMyPnl(Clean(deals, parse).value, fmt), ledger);
      Ok(Persist(ledger, delta))
  }

  /** `main` with the corrected write: an empty selection of deals ends the run with the ledger
      untouched; otherwise the remaining stages run. */
  function Run(fetched: seq<RawTransaction>, ledger: Option<Table>, parse: string -> Option<int>, fmt: int -> string)
    : (r: Result<Option<Table>, RunError>)
    ensures !HasDeal(fetched) ==> r == Ok(ledger)
    ensures r.Err? && r.error.CleanFailed? <==> !DealsParse(fetched, parse)
    ensures r.Err? && r.error.ReconcileFailed? <==> HasDeal(fetched) && DealsParse(fetched, parse) && UnknownColumn(ledger)
    ensures r.Ok? ==> Clean(DealsOnly(fetched), parse).Ok?
    // on success the ledger holds a row for every record formatted from the fetched deals
    ensures r.Ok? ==> HoldsAll(r.value, FormatForMyPnl(Clean(DealsOnly(fetched), parse).value, fmt))
    // nothing new leaves the ledger untouched; a bootstrap writes every record under the
    // formatter's header
    ensures r.Ok? && NothingNew(FormatForMyPnl(Clean(DealsOnly(fetched), parse).value, fmt), ledger) ==> r.value == ledger
    ensures r.Ok? && (ledger.None? || IsEmpty(ledger.value)) ==>
              var formatted := FormatForMyPnl(Clean(DealsOnly(fetched), parse).value, fmt);
              |formatted| > 0 ==> r.value == Some(Table(LedgerColumns, Project(formatted, LedgerColumns)))
  {
    var deals := DealsOnly(fetched);
    DealsMembers(fetched);
    BadDealKept(fetched, parse);
    if |deals| == 0 then
      assert Clean(deals, parse) == Ok([]);
      assert |FormatForMyPnl([], fmt)| == 0;
      assert NothingNew(FormatForMyPnl([], fmt), ledger);
      Ok(ledger)
    else
      assert HasDeal(fetched) by {
        assert deals[0] in deals;
      }
      Process(deals, ledger, parse, fmt)
  }

  /** `main` as written: the same stages, ending with `save_new_trades` replacing the file by
      the new rows. */
  function RunAsWritten(fetched: seq<RawTransaction>, ledger: Option<Table>, parse: string -> Option<int>, fmt: int -> string)
    : (r: Result<Option<Table>, RunError>)
    ensures !HasDeal(fetched) ==> r == Ok(ledger)
    // a non-empty ledger is either left alone or loses every row it had
    ensures r.Ok? && ledger.Some? && !IsEmpty(ledger.value) ==>
              || r.value == ledger
              || (r.value.Some? && forall row :: row in ledger.value.rows ==> row !in r.value.value.rows)
    ensures r.Ok? ==> Clean(DealsOnly(fetched), parse).Ok?
    // which of the two: untouched exactly when nothing is new; otherwise the file is the new rows
    ensures r.Ok? ==>
              var formatted := FormatForMyPnl(Clean(DealsOnly(fetched), parse).value, fmt);
              if NothingNew(formatted, ledger) then r.value == ledger
              else r.value.Some? && NewRowsOf(r.value.value, formatted, ledger)
  {
    var deals := DealsOnly(fetched);
    DealsMembers(fetched);
    if |deals| == 0 then
      assert Clean(deals, parse) == Ok([]);
      assert |FormatForMyPnl([], fmt)| == 0;
      Ok(ledger)
    else
      match NewRows(deals, ledger, parse, fmt)
      case Err(e) => Err(e)
      case Ok(delta) =>
        OverwriteOutcome(FormatForMyPnl(Clean(deals, parse).value, fmt), ledger, delta);
        Ok(PersistAsWritten(ledger, delta))
  }

  /** The overwrite of the new rows: nothing new leaves the ledger as it was; otherwise the
      file is the new rows, and a non-empty ledger loses every row it had. */
  lemma OverwriteOutcome(formatted: seq<LedgerRecord>, ledger: Option<Table>, delta: Table)
    requires NewRowsOf(delta, formatted, ledger)
    requires |delta.rows| == 0 <==> NothingNew(formatted, ledger)
    ensures var written := PersistAsWritten(ledger, delta);
            && (if NothingNew(formatted, ledger) then written == ledger
                else written.Some? && NewRowsOf(written.value, formatted, ledger))
            && (ledger.Some? && !IsEmpty(ledger.value) ==>
                  || written == ledger
                  || (written.Some? && forall row :: row in ledger.value.rows ==> row !in written.value.rows))
  {
    if ledger.Some? && !IsEmpty(ledger.value) {
      assert forall row :: row in delta.rows ==> row !in ledger.value.rows;
    }
  }

  /** The two writes agree on every failure and on a bootstrap; they differ only in what they
      do to an existing ledger. */
  lemma RunAsWrittenAgrees(fetched: seq<RawTransaction>, ledger: Option<Table>, parse: string -> Option<int>, fmt: int -> string)
    ensures RunAsWritten(fetched, ledger, parse, fmt).Err? <==> Run(fetched, ledger, parse, fmt).Err?
    ensures RunAsWritten(fetched, ledger, parse, fmt).Err? ==> RunAsWritten(fetched, ledger, parse, fmt) == Run(fetched, ledger, parse, fmt)
    ensures ledger.None? || IsEmpty(ledger.value) ==> RunAsWritten(fetched, ledger, parse, fmt) == Run(fetched, ledger, parse, fmt)
  {
    var deals := DealsOnly(fetched);
    if |deals| > 0 {
      var stages := NewRows(deals, ledger, parse, fmt);
      assert Run(fetched, ledger, parse, fmt) == Process(deals, ledger, parse, fmt);
      if stages.Ok? {
        assert Run(fetched, ledger, parse, fmt) == Ok(Persist(ledger, stages.value));
        assert RunAsWritten(fetched, ledger, parse, fmt) == Ok(PersistAsWritten(ledger, stages.value));
      }
    }
  }

  /** A run never loses ledger history: a non-empty ledger keeps its header and every row it
      had, in front of whatever the run adds. */
  lemma RunKeepsLedgerRows(fetched: seq<RawTransaction>, ledger: Table, parse: string -> Option<int>, fmt: int -> string)
    requires !IsEmpty(ledger)
    requires Run(fetched, Some(ledger), parse, fmt).Ok?
    ensures var written := Run(fetched, Some(ledger), parse, fmt).value;
            && written.Some? && written.value.columns == ledger.columns
            && |ledger.rows| <= |written.value.rows|
            && written.value.rows[..|ledger.rows|] == ledger.rows
  {
    var deals := DealsOnly(fetched);
    if |deals| > 0 {
      var cleaned := Clean(deals, parse).value;
      var delta := Reconcile(FormatForMyPnl(cleaned, fmt), Some(ledger)).value;
      assert Run(fetched, Some(ledger), parse, fmt) == Ok(Persist(Some(ledger), delta));
    }
  }

  /** A run adds nothing but new records: after a non-empty ledger's own rows come only
      projections of the formatted records, in their order, none of which the ledger held. */
  lemma RunAddsOnlyNew(fetched: seq<RawTransaction>, ledger: Table, parse: string -> Option<int>, fmt: int -> string)
    requires !IsEmpty(ledger)
    requires Run(fetched, Some(ledger), parse, fmt).Ok?
    ensures var written := Run(fetched, Some(ledger), parse, fmt).value;
            var formatted := FormatForMyPnl(Clean(DealsOnly(fetched), parse).value, fmt);
            && written.Some?
            && |ledger.rows| <= |written.value.rows|
            && (|written.value.rows| == |ledger.rows| ||
                (&& KnownColumns(ledger.columns)
                 && IsSubsequence(written.value.rows[|ledger.rows|..], Project(formatted, ledger.columns))
                 && forall row :: row in written.value.rows[|ledger.rows|..] ==> row !in ledger.rows))
    // with a deal fetched, the appended rows are exactly the new rows, repeats included
    ensures var written := Run(fetched, Some(ledger), parse, fmt).value;
            var formatted := FormatForMyPnl(Clean(DealsOnly(fetched), parse).value, fmt);
            HasDeal(fetched) ==> NewRowsOf(Table(ledger.columns, written.value.rows[|ledger.rows|..]), formatted, Some(ledger))
  {
    var deals := DealsOnly(fetched);
    if |deals| > 0 {
      var cleaned := Clean(deals, parse).value;
      var formatted := FormatForMyPnl(cleaned, fmt);
      var delta := Reconcile(formatted, Some(ledger)).value;
      assert Run(fetched, Some(ledger), parse, fmt) == Ok(Persist(Some(ledger), delta));
      assert FirstUnknownColumn(ledger.columns).None?;
      SubsequenceMembers(delta.rows, Project(formatted, ledger.columns));
      ReconcileNewRows(formatted, Some(ledger));
      var written := Persist(Some(ledger), delta).value;
      assert Table(ledger.columns, written.rows[|ledger.rows|..]) == delta;
    } else {
      DealsMembers(fetched);
    }
  }

  /** Running twice over the same fetch is running once: the second run finds every record
      already in the ledger and leaves it as the first run wrote it. */
  lemma {:induction false} RunIdempotent(fetched: seq<RawTransaction>, ledger: Option<Table>, parse: string -> Option<int>, fmt: int -> string)
    requires Run(fetched, ledger, parse, fmt).Ok?
    ensures var written := Run(fetched, ledger, parse, fmt).value;
            Run(fetched, written, parse, fmt) == Ok(written)
  {
    var deals := DealsOnly(fetched);
    if |deals| > 0 {
      var cleaned := Clean(deals, parse).value;
      var formatted := FormatForMyPnl(cleaned, fmt);
      RerunFindsNothingNew(formatted, ledger);
    }
  }

  /** The two partial closes of the worked example below, newest first. */
  function PartialCloses(): seq<Transaction> {
    [Transaction(Deal, Some("NASDAQ"), 100, 200, Some(50), Some(1500000), Some(1510000), 1000, "REF1", "GBP"),
     Transaction(Deal, Some("NASDAQ"), 100, 150, Some(50), Some(1500000), Some(1505000), 500, "REF2", "GBP")]
  }

  lemma PartialClosesGroup()
    ensures GroupBy(PartialCloses()) == [Group(Key(100, "NASDAQ"), PartialCloses())]
  {
    var s := PartialCloses();
    var k := Key(100, "NASDAQ");
    assert s[..1] == [s[0]] && [s[0]][..0] == [];
    assert GroupBy([s[0]]) == [Group(k, [s[0]])];
    assert [s[0]] + [s[1]] == s;
  }

  lemma PartialClosesSums()
    ensures Sum(PartialCloses(), SizeOrZero) == 100
    ensures Sum(PartialCloses(), Pnl) == 1500
  {
    var s := PartialCloses();
    assert s[..1] == [s[0]] && [s[0]][..0] == [];
  }

  lemma UniqueReferences()
    ensures Unique(["REF1", "REF2"]) == ["REF1", "REF2"]
  {
    var refs: seq<string> := ["REF1", "REF2"];
    assert refs[..1] == ["REF1"] && ["REF1"][..0] == [];
    assert Unique(["REF1"]) == ["REF1"];
    assert "REF1"[3] != "REF2"[3];
    assert refs[1] !in Unique(refs[..1]);
  }

  lemma PartialClosesReferenceIds()
    ensures References(PartialCloses()) == ["REF1", "REF2"]
  {
  }

  lemma JoinReferences()
    ensures Join(["REF1", "REF2"], RefSeparator) == "REF1; REF2"
  {
    assert ["REF1", "REF2"][1..] == ["REF2"];
  }

  lemma PartialClosesReferences()
    ensures Join(Unique(References(PartialCloses())), RefSeparator) == "REF1; REF2"
  {
    PartialClosesReferenceIds();
    UniqueReferences();
    JoinReferences();
  }

  lemma PartialClosesCombine()
    ensures Combine(Group(Key(100, "NASDAQ"), PartialCloses())) == PartialClosesTrade()
  {
    PartialClosesSums();
    PartialClosesReferences();
  }

  /** The combined trade of the worked example. */
  function PartialClosesTrade(): Trade {
    Trade("NASDAQ", 100, 200, Some(1500000), Some(1510000), 100, 1500, "REF1; REF2", Deal, "GBP")
  }

  lemma PartialClosesAggregate()
    ensures Aggregate(PartialCloses()) == [PartialClosesTrade()]
  {
    PartialClosesGroup();
    PartialClosesCombine();
  }

  lemma UpperNasdaq()
    ensures Upper("NASDAQ") == "NASDAQ"
  {
  }

  /** The ledger record of the worked example's trade. */
  lemma PartialClosesFormat(fmt: int -> string)
    ensures Format(PartialClosesTrade(), fmt)
              == LedgerRecord("NASDAQ", Buy, Some(1500000), Some(1510000), 100, 1500, fmt(200), fmt(100),
                              None, "REF1; REF2", None, None, None)
  {
    UpperNasdaq();
  }

  /** Two partial closes of one position (same open time and instrument, half the size each,
      newest first) become one ledger record: a buy of the whole size with the summed profit
      and loss, the newest close, and both references. */
  lemma PartialFillsCombine(fmt: int -> string)
    ensures FormatForMyPnl(PartialCloses(), fmt)
              == [LedgerRecord("NASDAQ", Buy, Some(1500000), Some(1510000), 100, 1500, fmt(200), fmt(100),
                               None, "REF1; REF2", None, None, None)]
  {
    PartialClosesAggregate();
    PartialClosesFormat(fmt);
    assert FormatAll([PartialClosesTrade()], fmt) == [Format(PartialClosesTrade(), fmt)];
  }
}
