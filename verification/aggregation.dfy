/** Partial-fill aggregation (`format_df_for_mypnl`'s group-by and `combine_trades`): cleaned
    deal records grouped by (open time, instrument name), each group collapsed into one trade. */
module Aggregation {
  import opened Common
  import opened Text
  import opened Transactions

  /** The group-by key. */
  datatype Key = Key(openDateUtc: int, instrumentName: string)

  /** A record's key; records without an instrument name have none and are dropped by the
      group-by, as pandas drops null keys. */
  function KeyOf(t: Transaction): (k: Option<Key>)
    ensures k.Some? <==> t.instrumentName.Some?
    ensures k.Some? ==> k.value.openDateUtc == t.openDateUtc && k.value.instrumentName == t.instrumentName.value
  {
    match t.instrumentName
    case None => None
    case Some(n) => Some(Key(t.openDateUtc, n))
  }

  /** Python's string order: code point by code point, a proper prefix first. */
  predicate StrLess(a: string, b: string)
    decreases |a|
  {
    if |a| == 0 then |b| > 0
    else if |b| == 0 then false
    else if a[0] != b[0] then a[0] < b[0]
    else StrLess(a[1..], b[1..])
  }

  lemma {:induction false} StrLessIrreflexive(a: string)
    ensures !StrLess(a, a)
    decreases |a|
  {
    if |a| > 0 {
      StrLessIrreflexive(a[1..]);
    }
  }

  lemma {:induction false} StrLessTransitive(a: string, b: string, c: string)
    requires StrLess(a, b) && StrLess(b, c)
    ensures StrLess(a, c)
    decreases |a|
  {
    if |a| > 0 && a[0] == b[0] && b[0] == c[0] {
      StrLessTransitive(a[1..], b[1..], c[1..]);
    }
  }

  lemma {:induction false} StrLessTotal(a: string, b: string)
    requires a != b
    ensures StrLess(a, b) || StrLess(b, a)
    decreases |a|
  {
    if |a| > 0 && |b| > 0 && a[0] == b[0] {
      assert a == [a[0]] + a[1..] && b == [b[0]] + b[1..];
      StrLessTotal(a[1..], b[1..]);
    }
  }

  /** The order in which the group-by emits its groups: by open time, then by name. */
  predicate KeyLess(a: Key, b: Key) {
    a.openDateUtc < b.openDateUtc || (a.openDateUtc == b.openDateUtc && StrLess(a.instrumentName, b.instrumentName))
  }

  lemma KeyLessIrreflexive(a: Key)
    ensures !KeyLess(a, a)
  {
    StrLessIrreflexive(a.instrumentName);
  }

  lemma KeyLessTransitive(a: Key, b: Key, c: Key)
    requires KeyLess(a, b) && KeyLess(b, c)
    ensures KeyLess(a, c)
  {
    if a.openDateUtc == b.openDateUtc == c.openDateUtc {
      StrLessTransitive(a.instrumentName, b.instrumentName, c.instrumentName);
    }
  }

  lemma KeyLessTotal(a: Key, b: Key)
    requires a != b
    ensures KeyLess(a, b) || KeyLess(b, a)
  {
    if a.openDateUtc == b.openDateUtc {
      StrLessTotal(a.instrumentName, b.instrumentName);
    }
  }

  /** One group of the group-by: its key and its rows in frame order. */
  datatype Group = Group(key: Key, rows: seq<Transaction>)

  /** Groups in strictly increasing key order, hence with no key twice. */
  predicate KeysIncreasing(gs: seq<Group>) {
    forall i, j :: 0 <= i < j < |gs| ==> KeyLess(gs[i].key, gs[j].key)
  }

  predicate NonEmptyGroups(gs: seq<Group>) {
    forall i :: 0 <= i < |gs| ==> |gs[i].rows| > 0
  }

  /** The keys the groups hold. */
  function Keys(gs: seq<Group>): set<Key>
    decreases |gs|
  {
    if |gs| == 0 then {} else {gs[0].key} + Keys(gs[1..])
  }

  lemma {:induction false} KeysMembers(gs: seq<Group>)
    ensures forall k :: k in Keys(gs) <==> exists i :: 0 <= i < |gs| && gs[i].key == k
    decreases |gs|
  {
    if |gs| > 0 {
      KeysMembers(gs[1..]);
      forall k | k in Keys(gs[1..])
        ensures exists i :: 0 <= i < |gs| && gs[i].key == k
      {
        var i :| 0 <= i < |gs[1..]| && gs[1..][i].key == k;
        assert gs[i + 1].key == k;
      }
      forall i | 0 < i < |gs|
        ensures gs[i].key in Keys(gs[1..])
      {
        assert gs[1..][i - 1] == gs[i];
      }
    }
  }

  /** The rows the groups hold for key `k` (none when no group has that key). */
  function RowsOf(gs: seq<Group>, k: Key): seq<Transaction>
    decreases |gs|
  {
    if |gs| == 0 then [] else if gs[0].key == k then gs[0].rows else RowsOf(gs[1..], k)
  }

  /** The selection `df[(df.openDateUtc, df.instrumentName) == k]`. */
  function HasKey(k: Key): Transaction -> bool {
    (t: Transaction) => KeyOf(t) == Some(k)
  }

  /** Reference definition of a group: the input rows with key `k`, in input order. */
  function RowsWithKey(s: seq<Transaction>, k: Key): seq<Transaction> {
    Filter(s, HasKey(k))
  }

  /** The distinct keys present in the input. */
  function RowKeys(s: seq<Transaction>): set<Key>
    decreases |s|
  {
    if |s| == 0 then {}
    else RowKeys(s[..|s| - 1]) + match KeyOf(s[|s| - 1]) case None => {} case Some(k) => {k}
  }

  lemma {:induction false} RowKeysMembers(s: seq<Transaction>)
    ensures forall k :: k in RowKeys(s) <==> exists t :: t in s && KeyOf(t) == Some(k)
    decreases |s|
  {
    if |s| > 0 {
      var init := s[..|s| - 1];
      RowKeysMembers(init);
      assert s == init + [s[|s| - 1]];
    }
  }

  /** Appending a row extends the selection for its key and no other. */
  lemma RowsWithKeySnoc(init: seq<Transaction>, last: Transaction, k: Key)
    ensures RowsWithKey(init + [last], k) == RowsWithKey(init, k) + (if KeyOf(last) == Some(k) then [last] else [])
  {
    var s := init + [last];
    assert s[..|s| - 1] == init;
  }

  /** A key smaller than the first key of increasing groups is held by none of them. */
  lemma {:induction false} AbsentBelowFirst(gs: seq<Group>, k: Key)
    requires KeysIncreasing(gs) && |gs| > 0 && KeyLess(k, gs[0].key)
    ensures k !in Keys(gs)
    ensures RowsOf(gs, k) == []
    decreases |gs|
  {
    KeyLessIrreflexive(k);
    if |gs| > 1 {
      assert KeysIncreasing(gs[1..]);
      KeyLessTransitive(k, gs[0].key, gs[1].key);
      AbsentBelowFirst(gs[1..], k);
    } else {
      assert gs[1..] == [];
    }
  }

  /** In increasing groups, every later key is above the first. */
  lemma FirstBelowRest(gs: seq<Group>)
    requires KeysIncreasing(gs) && |gs| > 0
    ensures forall x :: x in Keys(gs[1..]) ==> KeyLess(gs[0].key, x)
  {
    KeysMembers(gs[1..]);
    forall x | x in Keys(gs[1..])
      ensures KeyLess(gs[0].key, x)
    {
      var i :| 0 <= i < |gs[1..]| && gs[1..][i].key == x;
      assert gs[i + 1].key == x;
    }
  }

  /** A group whose key is below all keys of increasing groups can go in front of them. */
  lemma ConsIncreasing(g: Group, gs: seq<Group>)
    requires KeysIncreasing(gs)
    requires forall x :: x in Keys(gs) ==> KeyLess(g.key, x)
    ensures KeysIncreasing([g] + gs)
  {
    KeysMembers(gs);
    var r := [g] + gs;
    forall i, j | 0 <= i < j < |r|
      ensures KeyLess(r[i].key, r[j].key)
    {
      if i == 0 {
        assert r[j].key == gs[j - 1].key;
      } else {
        assert r[i] == gs[i - 1] && r[j] == gs[j - 1];
      }
    }
  }

  /** Adds row `t` with key `k` to increasing groups: appended to its group, or a new group in
      key order. */
  function AddKeyed(gs: seq<Group>, k: Key, t: Transaction): (r: seq<Group>)
    requires KeysIncreasing(gs)
    requires NonEmptyGroups(gs)
    ensures KeysIncreasing(r)
    ensures NonEmptyGroups(r)
    ensures Keys(r) == Keys(gs) + {k}
    decreases |gs|
  {
    if |gs| == 0 then [Group(k, [t])]
    else if gs[0].key == k then
      var r := [Group(k, gs[0].rows + [t])] + gs[1..];
      assert r[1..] == gs[1..];
      assert forall i :: 0 < i < |r| ==> r[i] == gs[i];
      r
    else if KeyLess(k, gs[0].key) then
      var g := Group(k, [t]);
      FirstBelowRest(gs);
      forall x | x in Keys(gs)
        ensures KeyLess(k, x)
      {
        if x != gs[0].key {
          KeyLessTransitive(k, gs[0].key, x);
        }
      }
      ConsIncreasing(g, gs);
      var r := [g] + gs;
      assert r[1..] == gs;
      r
    else
      KeyLessTotal(k, gs[0].key);
      var tail := gs[1..];
      assert KeysIncreasing(tail);
      FirstBelowRest(gs);
      var rest := AddKeyed(tail, k, t);
      ConsIncreasing(gs[0], rest);
      var r := [gs[0]] + rest;
      assert r[1..] == rest;
      r
  }

  /** Adding row `t` under key `k` appends it to that key's rows and to no other. */
  lemma {:induction false} AddKeyedRows(gs: seq<Group>, k: Key, t: Transaction, k': Key)
    requires KeysIncreasing(gs) && NonEmptyGroups(gs)
    ensures RowsOf(AddKeyed(gs, k, t), k') == if k' == k then RowsOf(gs, k) + [t] else RowsOf(gs, k')
    decreases |gs|
  {
    var r := AddKeyed(gs, k, t);
    if |gs| == 0 {
    } else if gs[0].key == k {
      assert r[1..] == gs[1..];
    } else if KeyLess(k, gs[0].key) {
      AbsentBelowFirst(gs, k);
      assert r[1..] == gs;
    } else {
      assert KeysIncreasing(gs[1..]);
      AddKeyedRows(gs[1..], k, t, k');
      assert r[1..] == AddKeyed(gs[1..], k, t);
    }
  }

  /** The group-by: rows with a key, grouped in ascending key order. */
  function GroupBy(s: seq<Transaction>): (gs: seq<Group>)
    ensures KeysIncreasing(gs)
    ensures NonEmptyGroups(gs)
    ensures Keys(gs) == RowKeys(s)
    decreases |s|
  {
    if |s| == 0 then []
    else
      var init, last := s[..|s| - 1], s[|s| - 1];
      var g0 := GroupBy(init);
      match KeyOf(last)
      case None => g0
      case Some(k) => AddKeyed(g0, k, last)
  }

  /** Each group of the group-by holds exactly the input rows with its key, in input order. */
  lemma {:induction false} GroupByRows(s: seq<Transaction>, k: Key)
    ensures RowsOf(GroupBy(s), k) == RowsWithKey(s, k)
    decreases |s|
  {
    if |s| > 0 {
      var init, last := s[..|s| - 1], s[|s| - 1];
      assert s == init + [last];
      GroupByRows(init, k);
      RowsWithKeySnoc(init, last, k);
      match KeyOf(last)
      case None =>
      case Some(k0) =>
        AddKeyedRows(GroupBy(init), k0, last, k);
    }
  }

  /** With no key twice, each group's rows are the rows stored under its key. */
  lemma {:induction false} RowsOfGroup(gs: seq<Group>, i: nat)
    requires KeysIncreasing(gs) && i < |gs|
    ensures RowsOf(gs, gs[i].key) == gs[i].rows
    decreases i
  {
    if i > 0 {
      assert KeysIncreasing(gs[1..]);
      assert gs[1..][i - 1] == gs[i];
      RowsOfGroup(gs[1..], i - 1);
      if gs[0].key == gs[i].key {
        KeyLessIrreflexive(gs[0].key);
      }
    }
  }

  /** One aggregated trade, the `pd.Series` built by `combine_trades`. */
  datatype Trade = Trade(
    instrumentName: string,
    openDateUtc: int,
    dateUtc: int,
    openLevel: Option<int>,
    closeLevel: Option<int>,
    size: int,
    profitAndLoss: int,
    reference: string,
    transactionType: string,
    currency: string)

  function TradeKey(tr: Trade): Key {
    Key(tr.openDateUtc, tr.instrumentName)
  }

  /** A record's contribution to the size sum; pandas' `sum` skips missing values. */
  function SizeOrZero(t: Transaction): int {
    match t.size
    case None => 0
    case Some(v) => v
  }

  function Pnl(t: Transaction): int {
    t.profitAndLoss
  }

  function References(rows: seq<Transaction>): (refs: seq<string>)
    ensures |refs| == |rows|
    ensures forall i :: 0 <= i < |rows| ==> refs[i] == rows[i].reference
  {
    seq(|rows|, i requires 0 <= i < |rows| => rows[i].reference)
  }

  /** `combine_trades`: additive columns summed, reference ids de-duplicated and joined, the
      rest taken from the group's first row. */
  function Combine(g: Group): (tr: Trade)
    requires |g.rows| > 0
    ensures TradeKey(tr) == g.key
    // for a group whose rows carry its key, the trade is what `combine_trades` promises
    ensures KeyOf(g.rows[0]) == Some(g.key) ==> CombinesGroup(tr, g.key, g.rows)
    // reference ids free of `;` can be read back, each once, in first-seen order
    ensures NoSemicolons(References(g.rows)) ==> SplitRefs(tr.reference) == Unique(References(g.rows))
  {
    var latest := g.rows[0];
    var refs := References(g.rows);
    assert NoSemicolons(refs) ==> SplitRefs(Join(Unique(refs), RefSeparator)) == Unique(refs) by {
      if NoSemicolons(refs) {
        JoinUniqueReadBack(refs);
      }
    }
    Trade(g.key.instrumentName, g.key.openDateUtc, latest.dateUtc, latest.openLevel, latest.closeLevel,
          Sum(g.rows, SizeOrZero), Sum(g.rows, Pnl), Join(Unique(References(g.rows)), RefSeparator),
          latest.transactionType, latest.currency)
  }

  function CombineAll(gs: seq<Group>): (trades: seq<Trade>)
    requires NonEmptyGroups(gs)
    ensures |trades| == |gs|
    ensures forall i :: 0 <= i < |gs| ==> trades[i] == Combine(gs[i])
    decreases |gs|
  {
    if |gs| == 0 then [] else [Combine(gs[0])] + CombineAll(gs[1..])
  }

  /** What `combine_trades` promises about the trade for input rows `rows` sharing key `k`. */
  predicate CombinesGroup(tr: Trade, k: Key, rows: seq<Transaction>) {
    && |rows| > 0
    && TradeKey(tr) == k
    && rows[0].instrumentName == Some(tr.instrumentName)
    && rows[0].openDateUtc == tr.openDateUtc
    && tr.dateUtc == rows[0].dateUtc
    && tr.openLevel == rows[0].openLevel
    && tr.closeLevel == rows[0].closeLevel
    && tr.transactionType == rows[0].transactionType
    && tr.currency == rows[0].currency
    && tr.size == Sum(rows, SizeOrZero)
    && tr.profitAndLoss == Sum(rows, Pnl)
    && tr.reference == Join(Unique(References(rows)), RefSeparator)
  }

  /** The set of keys of strictly increasing groups has one element per group. */
  lemma {:induction false} KeysCardinality(gs: seq<Group>)
    requires KeysIncreasing(gs)
    ensures |Keys(gs)| == |gs|
    decreases |gs|
  {
    if |gs| > 0 {
      var tail := gs[1..];
      assert KeysIncreasing(tail);
      KeysCardinality(tail);
      KeysMembers(tail);
      KeyLessIrreflexive(gs[0].key);
      assert gs[0].key !in Keys(tail);
    }
  }

  /** The `i`-th group, combined, is the trade for the input rows with its key. */
  lemma {:induction false} CombinedGroup(s: seq<Transaction>, i: nat)
    requires i < |GroupBy(s)|
    ensures var g := GroupBy(s)[i];
            CombinesGroup(Combine(g), g.key, RowsWithKey(s, g.key))
  {
    var gs := GroupBy(s);
    var g := gs[i];
    RowsOfGroup(gs, i);
    GroupByRows(s, g.key);
    assert HasKey(g.key)(g.rows[0]);
  }

  /** `format_df_for_mypnl`'s `groupby(...).apply(combine_trades)`. */
  function Aggregate(s: seq<Transaction>): (trades: seq<Trade>)
    // one trade per distinct key present in the input, in ascending key order
    ensures |trades| == |GroupKeys(s)|
    ensures forall i :: 0 <= i < |trades| ==> TradeKey(trades[i]) == GroupKeys(s)[i]
  {
    var gs := GroupBy(s);
    CombineAll(gs)
  }

  /** The distinct keys of the input rows in ascending order: the order of the groups. */
  function GroupKeys(s: seq<Transaction>): (keys: seq<Key>)
    ensures |keys| == |RowKeys(s)|
    ensures forall i, j :: 0 <= i < j < |keys| ==> KeyLess(keys[i], keys[j])
    ensures forall k :: k in keys <==> k in RowKeys(s)
  {
    var gs := GroupBy(s);
    KeysCardinality(gs);
    KeyList(gs)
  }

  /** The groups' keys, in group order. */
  function KeyList(gs: seq<Group>): (keys: seq<Key>)
    ensures |keys| == |gs|
    ensures forall i :: 0 <= i < |gs| ==> keys[i] == gs[i].key
    ensures forall k :: k in keys <==> k in Keys(gs)
    decreases |gs|
  {
    if |gs| == 0 then [] else [gs[0].key] + KeyList(gs[1..])
  }

  /** Each trade combines exactly the input rows that carry its key: sums over them, the
      de-duplicated references, and the first of them for every other column. */
  lemma AggregateCombinesGroups(s: seq<Transaction>)
    ensures forall i :: 0 <= i < |Aggregate(s)| ==>
              CombinesGroup(Aggregate(s)[i], TradeKey(Aggregate(s)[i]), RowsWithKey(s, TradeKey(Aggregate(s)[i])))
  {
    var trades := Aggregate(s);
    forall i | 0 <= i < |trades|
      ensures CombinesGroup(trades[i], TradeKey(trades[i]), RowsWithKey(s, TradeKey(trades[i])))
    {
      CombinedGroup(s, i);
    }
  }

  /** Total of `f` over all rows held by the groups. */
  function GroupTotal(gs: seq<Group>, f: Transaction -> int): int
    decreases |gs|
  {
    if |gs| == 0 then 0 else Sum(gs[0].rows, f) + GroupTotal(gs[1..], f)
  }

  /** Adding a row to the groups adds its term to their total. */
  lemma {:induction false} AddKeyedTotal(gs: seq<Group>, k: Key, t: Transaction, f: Transaction -> int)
    requires KeysIncreasing(gs) && NonEmptyGroups(gs)
    ensures GroupTotal(AddKeyed(gs, k, t), f) == GroupTotal(gs, f) + f(t)
    decreases |gs|
  {
    if |gs| == 0 {
      assert Sum([t], f) == f(t) by {
        assert [t][..0] == [];
      }
    } else if gs[0].key == k {
      var r := AddKeyed(gs, k, t);
      assert (gs[0].rows + [t])[..|gs[0].rows|] == gs[0].rows;
      assert r[1..] == gs[1..];
    } else if KeyLess(k, gs[0].key) {
      var r := AddKeyed(gs, k, t);
      assert r[1..] == gs;
      assert Sum([t], f) == f(t) by {
        assert [t][..0] == [];
      }
    } else {
      var r := AddKeyed(gs, k, t);
      assert KeysIncreasing(gs[1..]);
      AddKeyedTotal(gs[1..], k, t, f);
      assert r[1..] == AddKeyed(gs[1..], k, t);
    }
  }

  /** Rows that have a key (a non-null instrument name). */
  predicate Named(t: Transaction) {
    t.instrumentName.Some?
  }

  /** Grouping neither loses nor repeats a row's contribution to a column total. */
  lemma {:induction false} GroupByConservesTotal(s: seq<Transaction>, f: Transaction -> int)
    ensures GroupTotal(GroupBy(s), f) == Sum(Filter(s, Named), f)
    decreases |s|
  {
    if |s| > 0 {
      var init, last := s[..|s| - 1], s[|s| - 1];
      GroupByConservesTotal(init, f);
      assert Filter(s, Named) == Filter(init, Named) + (if Named(last) then [last] else []);
      match KeyOf(last)
      case None =>
      case Some(k) =>
        AddKeyedTotal(GroupBy(init), k, last, f);
        var fi := Filter(init, Named);
        assert (fi + [last])[..|fi|] == fi;
    }
  }

  function TradeSize(tr: Trade): int {
    tr.size
  }

  function TradePnl(tr: Trade): int {
    tr.profitAndLoss
  }

  /** The trades' total is the groups' total. */
  lemma {:induction false} CombineAllTotals(gs: seq<Group>)
    requires NonEmptyGroups(gs)
    ensures Sum(CombineAll(gs), TradeSize) == GroupTotal(gs, SizeOrZero)
    ensures Sum(CombineAll(gs), TradePnl) == GroupTotal(gs, Pnl)
    decreases |gs|
  {
    if |gs| > 0 {
      var tr, rest := Combine(gs[0]), CombineAll(gs[1..]);
      assert NonEmptyGroups(gs[1..]);
      CombineAllTotals(gs[1..]);
      assert CombineAll(gs) == [tr] + rest;
      SumAppend([tr], rest, TradeSize);
      SumAppend([tr], rest, TradePnl);
      SumSingleton(tr, TradeSize);
      SumSingleton(tr, TradePnl);
    }
  }


  /** Aggregation conserves size and profit and loss: the trades' totals are the totals over
      every input row that has an instrument name. */
  lemma {:induction false} AggregateConservesTotals(s: seq<Transaction>)
    ensures Sum(Aggregate(s), TradeSize) == Sum(Filter(s, Named), SizeOrZero)
    ensures Sum(Aggregate(s), TradePnl) == Sum(Filter(s, Named), Pnl)
  {
    var gs := GroupBy(s);
    assert Aggregate(s) == CombineAll(gs);
    CombineAllTotals(gs);
    GroupByConservesTotal(s, SizeOrZero);
    GroupByConservesTotal(s, Pnl);
  }

  /** The per-key sums do not depend on the order of the input rows. */
  lemma {:induction false} GroupSumsIgnoreOrder(s1: seq<Transaction>, s2: seq<Transaction>, k: Key)
    requires multiset(s1) == multiset(s2)
    ensures Sum(RowsWithKey(s1, k), SizeOrZero) == Sum(RowsWithKey(s2, k), SizeOrZero)
    ensures Sum(RowsWithKey(s1, k), Pnl) == Sum(RowsWithKey(s2, k), Pnl)
  {
    var a, b := RowsWithKey(s1, k), RowsWithKey(s2, k);
    assert multiset(a) == multiset(b) by {
      forall x
        ensures multiset(a)[x] == multiset(b)[x]
      {
      }
    }
    SumPermutation(a, b, SizeOrZero);
    SumPermutation(a, b, Pnl);
  }

  /** On newest-first input, each trade carries its group's latest close timestamp. */
  lemma {:induction false} LatestCloseWins(s: seq<Transaction>, i: nat)
    requires NewestFirst(s)
    requires i < |Aggregate(s)|
    ensures forall t :: t in RowsWithKey(s, TradeKey(Aggregate(s)[i])) ==> t.dateUtc <= Aggregate(s)[i].dateUtc
  {
    var g := GroupBy(s)[i];
    var tr := Aggregate(s)[i];
    CombinedGroup(s, i);
    assert tr == Combine(g);
    var rows := RowsWithKey(s, g.key);
    SubsequenceNewestFirst(rows, s);
    forall t | t in rows
      ensures t.dateUtc <= tr.dateUtc
    {
      var j :| 0 <= j < |rows| && rows[j] == t;
      if j > 0 {
        assert rows[0].dateUtc >= rows[j].dateUtc;
      }
    }
  }

  /** The joined reference string reads back as the group's distinct references in first-seen
      order, provided no reference contains `;`. */
  lemma {:induction false} ReferencesReadBack(s: seq<Transaction>, i: nat)
    requires i < |Aggregate(s)|
    requires forall t :: t in s ==> ';' !in t.reference
    ensures SplitRefs(Aggregate(s)[i].reference) == Unique(References(RowsWithKey(s, TradeKey(Aggregate(s)[i]))))
  {
    var g := GroupBy(s)[i];
    CombinedGroup(s, i);
    var rows := RowsWithKey(s, g.key);
    var refs := References(rows);
    SubsequenceMembers(rows, s);
    assert NoSemicolons(refs) by {
      forall m | 0 <= m < |refs|
        ensures ';' !in refs[m]
      {
        assert rows[m] in s;
      }
    }
    JoinUniqueReadBack(refs);
  }
}
