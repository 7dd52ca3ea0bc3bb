/** Deal records as the history endpoint reports them, the `DEAL` filter of `get_transactions`,
    and the normalisation of `clean_df`: numeric coercion, removal of the pound sign from the
    profit and loss, instrument-name canonicalisation and newest-first ordering. */
module Transactions {
  import opened Common
  import opened Text
  import opened Symbols

  /** One record of the `transactions` array. Timestamps are opaque ordered integers; the
      numeric fields are still text, as delivered. */
  datatype RawTransaction = RawTransaction(
    transactionType: string,
    instrumentName: Option<string>,
    openDateUtc: int,
    dateUtc: int,
    size: string,
    openLevel: string,
    closeLevel: string,
    profitAndLoss: string,
    reference: string,
    currency: string)

  /** A record after `clean_df`: amounts are fixed-point integers, and the coerced columns are
      missing where the text did not parse. */
  datatype Transaction = Transaction(
    transactionType: string,
    instrumentName: Option<string>,
    openDateUtc: int,
    dateUtc: int,
    size: Option<int>,
    openLevel: Option<int>,
    closeLevel: Option<int>,
    profitAndLoss: int,
    reference: string,
    currency: string)

  /** The transaction type `get_transactions` keeps. */
  const Deal: string := "DEAL"

  /** The currency glyph stripped from the profit and loss. */
  const Pound: char := '£'

  predicate IsDeal(t: RawTransaction) {
    t.transactionType == Deal
  }

  /** `df[df['transactionType'] == 'DEAL']`, with an empty fetch giving an empty frame. */
  function DealsOnly(fetched: seq<RawTransaction>): (deals: seq<RawTransaction>)
    ensures IsSubsequence(deals, fetched)
    ensures forall i :: 0 <= i < |deals| ==> deals[i].transactionType == Deal
    ensures forall t :: multiset(deals)[t] == if t.transactionType == Deal then multiset(fetched)[t] else 0
    ensures |fetched| == 0 ==> deals == []
  {
    Filter(fetched, IsDeal)
  }

  /** The profit and loss text with every pound sign removed, ready for `astype(float)`. */
  function PnlText(t: RawTransaction): string {
    RemoveChar(t.profitAndLoss, Pound)
  }

  /** Whether `astype(float)` accepts this record's profit and loss. */
  predicate PnlParses(t: RawTransaction, parse: string -> Option<int>) {
    parse(PnlText(t)).Some?
  }

  /** Why `clean_df` raised: a profit and loss that is not a number once the glyph is gone. */
  datatype CleanError = UnparsablePnl(text: string)

  /** One record through `clean_df`'s column conversions and `map_symbol`. */
  function CleanRow(t: RawTransaction, parse: string -> Option<int>): (c: Transaction)
    requires PnlParses(t, parse)
    ensures c.instrumentName == MapSymbol(t.instrumentName)
    ensures c.size == parse(t.size) && c.openLevel == parse(t.openLevel) && c.closeLevel == parse(t.closeLevel)
    ensures Some(c.profitAndLoss) == parse(PnlText(t))
    ensures c.openDateUtc == t.openDateUtc && c.dateUtc == t.dateUtc
    ensures c.transactionType == t.transactionType && c.reference == t.reference && c.currency == t.currency
    // the cleaned name is canonical: mapping it again changes nothing
    ensures MapSymbol(c.instrumentName) == c.instrumentName
    ensures c.instrumentName.Some? ==>
              c.instrumentName == t.instrumentName || c.instrumentName.value in {"NASDAQ", "XAUUSD"}
    // the parsed profit and loss came from text without the currency glyph
    ensures Pound !in PnlText(t)
  {
    MapSymbolIdempotent(t.instrumentName);
    Transaction(t.transactionType, MapSymbol(t.instrumentName), t.openDateUtc, t.dateUtc,
                parse(t.size), parse(t.openLevel), parse(t.closeLevel),
                parse(PnlText(t)).value, t.reference, t.currency)
  }

  /** Every record cleaned, in input order. */
  function CleanRows(raw: seq<RawTransaction>, parse: string -> Option<int>): (rows: seq<Transaction>)
    requires forall i :: 0 <= i < |raw| ==> PnlParses(raw[i], parse)
    ensures |rows| == |raw|
    ensures forall i :: 0 <= i < |raw| ==> rows[i] == CleanRow(raw[i], parse)
    // every cleaned name is canonical, and every profit and loss is its record's parsed text
    ensures forall i :: 0 <= i < |raw| ==> MapSymbol(rows[i].instrumentName) == rows[i].instrumentName
    ensures forall i :: 0 <= i < |raw| ==> Some(rows[i].profitAndLoss) == parse(PnlText(raw[i]))
  {
    seq(|raw|, i requires 0 <= i < |raw| => CleanRow(raw[i], parse))
  }

  /** Position of the first record whose profit and loss does not parse. */
  function FirstBadPnl(raw: seq<RawTransaction>, parse: string -> Option<int>): (r: Option<nat>)
    ensures r.None? <==> forall i :: 0 <= i < |raw| ==> PnlParses(raw[i], parse)
    ensures r.Some? ==> r.value < |raw| && !PnlParses(raw[r.value], parse)
    ensures r.Some? ==> forall j :: 0 <= j < r.value ==> PnlParses(raw[j], parse)
  {
    FirstWhere(raw, (t: RawTransaction) => !PnlParses(t, parse))
  }

  /** Newest first by close timestamp. */
  predicate NewestFirst(s: seq<Transaction>) {
    forall i, j :: 0 <= i < j < |s| ==> s[i].dateUtc >= s[j].dateUtc
  }

  /** Every record closed no later than `d`. */
  predicate ClosedBy(s: seq<Transaction>, d: int) {
    forall i :: 0 <= i < |s| ==> s[i].dateUtc <= d
  }

  /** A permutation of records closed by `d` is closed by `d`. */
  lemma ClosedByPermutation(a: seq<Transaction>, b: seq<Transaction>, d: int)
    requires multiset(a) == multiset(b) && ClosedBy(b, d)
    ensures ClosedBy(a, d)
  {
    forall i | 0 <= i < |a|
      ensures a[i].dateUtc <= d
    {
      assert a[i] in multiset(b);
      var j :| 0 <= j < |b| && b[j] == a[i];
    }
  }

  /** A record closed no earlier than everything after it heads a newest-first sequence. */
  lemma ConsNewestFirst(x: Transaction, s: seq<Transaction>)
    requires NewestFirst(s) && ClosedBy(s, x.dateUtc)
    ensures NewestFirst([x] + s)
  {
    var r := [x] + s;
    forall i, j | 0 <= i < j < |r|
      ensures r[i].dateUtc >= r[j].dateUtc
    {
      assert r[j] == s[j - 1];
      if i > 0 {
        assert r[i] == s[i - 1];
      }
    }
  }

  /** Places `t` in front of the first record that closed strictly earlier. */
  function InsertNewestFirst(t: Transaction, s: seq<Transaction>): (r: seq<Transaction>)
    requires NewestFirst(s)
    ensures NewestFirst(r)
    ensures multiset(r) == multiset(s) + multiset{t}
    decreases |s|
  {
    if |s| == 0 || s[0].dateUtc <= t.dateUtc then
      assert ClosedBy(s, t.dateUtc) by {
        forall i | 0 <= i < |s|
          ensures s[i].dateUtc <= t.dateUtc
        {
          assert s[i].dateUtc <= s[0].dateUtc;
        }
      }
      ConsNewestFirst(t, s);
      [t] + s
    else
      var head, tail := s[0], s[1..];
      assert s == [head] + tail;
      var rest := InsertNewestFirst(t, tail);
      assert ClosedBy(tail + [t], head.dateUtc) by {
        forall i | 0 <= i < |tail + [t]|
          ensures (tail + [t])[i].dateUtc <= head.dateUtc
        {
          if i < |tail| {
            assert (tail + [t])[i] == s[i + 1];
          }
        }
      }
      assert multiset(rest) == multiset(tail + [t]);
      ClosedByPermutation(rest, tail + [t], head.dateUtc);
      ConsNewestFirst(head, rest);
      [head] + rest
  }

  /** `sort_values('dateUtc', ascending=False)`: a newest-first permutation of the input. */
  function SortNewestFirst(s: seq<Transaction>): (r: seq<Transaction>)
    ensures NewestFirst(r)
    ensures multiset(r) == multiset(s)
    decreases |s|
  {
    if |s| == 0 then []
    else
      assert s == [s[0]] + s[1..];
      InsertNewestFirst(s[0], SortNewestFirst(s[1..]))
  }

  /** `clean_df`: fails on the first profit and loss that does not parse; otherwise every record
      is cleaned and the result is ordered newest first. */
  function Clean(raw: seq<RawTransaction>, parse: string -> Option<int>): (r: Result<seq<Transaction>, CleanError>)
    ensures r.Ok? <==> forall i :: 0 <= i < |raw| ==> PnlParses(raw[i], parse)
    ensures r.Err? ==> exists i :: 0 <= i < |raw| && !PnlParses(raw[i], parse) && r.error == UnparsablePnl(PnlText(raw[i]))
    ensures r.Ok? ==> NewestFirst(r.value)
    ensures r.Ok? ==> multiset(r.value) == multiset(CleanRows(raw, parse))
    ensures r.Ok? ==> |r.value| == |raw|
  {
    match FirstBadPnl(raw, parse)
    case Some(i) => Err(UnparsablePnl(PnlText(raw[i])))
    case None =>
      var sorted := SortNewestFirst(CleanRows(raw, parse));
      assert |sorted| == |multiset(sorted)|;
      Ok(sorted)
  }

  /** A subsequence of a newest-first sequence is newest first. */
  lemma {:induction false} SubsequenceNewestFirst(sub: seq<Transaction>, s: seq<Transaction>)
    requires IsSubsequence(sub, s)
    requires NewestFirst(s)
    ensures NewestFirst(sub)
    decreases |s|
  {
    if |sub| == 0 {
    } else {
      var s0, sub0 := s[..|s| - 1], sub[..|sub| - 1];
      assert NewestFirst(s0);
      if sub[|sub| - 1] == s[|s| - 1] && IsSubsequence(sub0, s0) {
        SubsequenceNewestFirst(sub0, s0);
        SubsequenceMembers(sub0, s0);
        forall i | 0 <= i < |sub0|
          ensures sub[i].dateUtc >= sub[|sub| - 1].dateUtc
        {
          assert sub[i] == sub0[i] && sub0[i] in s0;
          var k :| 0 <= k < |s0| && s0[k] == sub0[i];
          assert s[k] == s0[k];
        }
      } else {
        SubsequenceNewestFirst(sub, s0);
      }
    }
  }
}
