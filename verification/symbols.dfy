/** Instrument-name canonicalisation (`map_symbol` inside `clean_df`): a static alias table
    consulted in three tiers, first tier that matches wins. */
module Symbols {
  import opened Common
  import opened Text

  /** One entry of the alias table: broker display name to trading symbol. */
  datatype Alias = Alias(key: string, value: string)

  /** The table `clean_df` uses, in dictionary order. */
  const SymbolMapping: seq<Alias> := [Alias("US Tech 100", "NASDAQ"), Alias("SPOT GOLD", "XAUUSD")]

  /** The three matching tiers, in the order they are tried. */
  datatype Tier = Exact | CaseInsensitive | Prefix

  /** Whether alias key `key` matches instrument `name` under `tier`. */
  predicate Matches(tier: Tier, key: string, name: string) {
    match tier
    case Exact => name == key
    case CaseInsensitive => Upper(name) == Upper(key)
    case Prefix => IsPrefix(Upper(key), Upper(name))
  }

  /** No key of `table` matches `name` under `tier`. */
  predicate NoMatch(table: seq<Alias>, tier: Tier, name: string) {
    forall i :: 0 <= i < |table| ==> !Matches(tier, table[i].key, name)
  }

  /** Entry `i` is the first entry of `table` whose key matches `name` under `tier`. */
  predicate FirstMatchAt(table: seq<Alias>, tier: Tier, name: string, i: int) {
    && 0 <= i < |table|
    && Matches(tier, table[i].key, name)
    && forall j :: 0 <= j < i ==> !Matches(tier, table[j].key, name)
  }

  /** Scan of the table for one tier (the `for key, value in symbol_mapping.items()` loops). */
  function FindMatch(table: seq<Alias>, tier: Tier, name: string): (r: Option<nat>)
    ensures r.Some? ==> FirstMatchAt(table, tier, name, r.value)
    ensures r.None? ==> NoMatch(table, tier, name)
    decreases |table|
  {
    if |table| == 0 then None
    else if Matches(tier, table[0].key, name) then Some(0)
    else match FindMatch(table[1..], tier, name)
      case None => None
      case Some(i) => Some(i + 1)
  }

  /** The canonical name of a non-null instrument name. */
  function Canonicalise(table: seq<Alias>, name: string): (r: string)
    // tier 1: an exact key match decides, whatever the later tiers would say
    ensures forall i :: FirstMatchAt(table, Exact, name, i) ==> r == table[i].value
    // tier 2 applies only when no key matches exactly
    ensures NoMatch(table, Exact, name) ==>
              forall i :: FirstMatchAt(table, CaseInsensitive, name, i) ==> r == table[i].value
    // tier 3 applies only when neither earlier tier matched
    ensures NoMatch(table, Exact, name) && NoMatch(table, CaseInsensitive, name) ==>
              forall i :: FirstMatchAt(table, Prefix, name, i) ==> r == table[i].value
    // an unmatched name passes through unchanged
    ensures (NoMatch(table, Exact, name) && NoMatch(table, CaseInsensitive, name) &&
             NoMatch(table, Prefix, name)) ==> r == name
    ensures r == name || exists i :: 0 <= i < |table| && r == table[i].value
  {
    match FindMatch(table, Exact, name)
    case Some(i) => table[i].value
    case None =>
      match FindMatch(table, CaseInsensitive, name)
      case Some(i) => table[i].value
      case None =>
        match FindMatch(table, Prefix, name)
        case Some(i) => table[i].value
        case None => name
  }

  /** `map_symbol`: null names pass through, others are canonicalised with `SymbolMapping`. */
  function MapSymbol(name: Option<string>): (r: Option<string>)
    ensures name.None? <==> r.None?
    ensures name.Some? ==> r.value == Canonicalise(SymbolMapping, name.value)
    // a name either passes through or becomes one of the table's two symbols
    ensures r.Some? ==> r.value == name.value || r.value in {"NASDAQ", "XAUUSD"}
  {
    assert SymbolMapping[0].value == "NASDAQ" && SymbolMapping[1].value == "XAUUSD";
    match name
    case None => None
    case Some(n) => Some(Canonicalise(SymbolMapping, n))
  }

  /** Every alias value is left alone by the table it belongs to. */
  predicate ValuesAreFixed(table: seq<Alias>) {
    forall i :: 0 <= i < |table| ==> Canonicalise(table, table[i].value) == table[i].value
  }

  /** Canonicalising twice is canonicalising once, for any table whose values are fixed points. */
  lemma CanonicaliseIdempotent(table: seq<Alias>, name: string)
    requires ValuesAreFixed(table)
    ensures Canonicalise(table, Canonicalise(table, name)) == Canonicalise(table, name)
  {
  }

  /** Neither `NASDAQ` nor `XAUUSD` matches a key of the fixed table under any tier. */
  lemma SymbolMappingValuesFixed()
    ensures ValuesAreFixed(SymbolMapping)
  {
    var k0, k1 := "US Tech 100", "SPOT GOLD";
    assert SymbolMapping[0].key == k0 && SymbolMapping[1].key == k1;
    forall v | v in ["NASDAQ", "XAUUSD"]
      ensures NoMatch(SymbolMapping, Exact, v)
      ensures NoMatch(SymbolMapping, CaseInsensitive, v)
      ensures NoMatch(SymbolMapping, Prefix, v)
    {
      assert |Upper(v)| == 6 < |Upper(k1)| < |Upper(k0)|;
      assert Upper(v) != Upper(k0) && Upper(v) != Upper(k1);
      assert !IsPrefix(Upper(k0), Upper(v)) && !IsPrefix(Upper(k1), Upper(v));
    }
  }

  /** `map_symbol` is idempotent: a name that has been mapped maps to itself. */
  lemma MapSymbolIdempotent(name: Option<string>)
    ensures MapSymbol(MapSymbol(name)) == MapSymbol(name)
  {
    if name.Some? {
      SymbolMappingValuesFixed();
      CanonicaliseIdempotent(SymbolMapping, name.value);
    }
  }

  /** Tier 1: the exact key. */
  lemma ExactExample()
    ensures MapSymbol(Some("US Tech 100")) == Some("NASDAQ")
  {
    assert FirstMatchAt(SymbolMapping, Exact, "US Tech 100", 0);
  }

  /** Tier 2: the key in another case. */
  lemma CaseInsensitiveExample()
    ensures MapSymbol(Some("Spot Gold")) == Some("XAUUSD")
  {
    var k0, k1, g := "US Tech 100", "SPOT GOLD", "Spot Gold";
    assert SymbolMapping[0].key == k0 && SymbolMapping[1].key == k1;
    assert Upper(g) == Upper(k1) == "SPOT GOLD";
    assert g != k0 && g != k1;
    assert NoMatch(SymbolMapping, Exact, g);
    assert FirstMatchAt(SymbolMapping, CaseInsensitive, g, 1) by {
      assert |Upper(g)| != |Upper(k0)|;
    }
  }

  /** Tier 3: a longer name that starts with a key, in any case. */
  lemma PrefixExample()
    ensures MapSymbol(Some("Spot Gold - Cash")) == Some("XAUUSD")
  {
    var k0, k1, c := "US Tech 100", "SPOT GOLD", "Spot Gold - Cash";
    assert SymbolMapping[0].key == k0 && SymbolMapping[1].key == k1;
    assert Upper(c)[..9] == "SPOT GOLD";
    assert NoMatch(SymbolMapping, Exact, c);
    assert NoMatch(SymbolMapping, CaseInsensitive, c) by {
      assert |Upper(c)| != |Upper(k0)| && |Upper(c)| != |Upper(k1)|;
    }
    assert FirstMatchAt(SymbolMapping, Prefix, c, 1) by {
      assert Upper(k0)[0] == 'U' != Upper(c)[0];
      assert !IsPrefix(Upper(k0), Upper(c));
    }
  }

  /** No tier matches: the name passes through. */
  lemma UnmatchedExample()
    ensures MapSymbol(Some("Wall Street")) == Some("Wall Street")
  {
    var k0, k1, w := "US Tech 100", "SPOT GOLD", "Wall Street";
    assert SymbolMapping[0].key == k0 && SymbolMapping[1].key == k1;
    assert Upper(w)[0] == 'W';
    assert Upper(k0)[0] == 'U' && Upper(k1)[0] == 'S';
    assert NoMatch(SymbolMapping, Exact, w);
    assert NoMatch(SymbolMapping, CaseInsensitive, w);
    assert NoMatch(SymbolMapping, Prefix, w);
  }

  /** Worked cases: each tier of the fixed table, a name no tier matches, and a null name. */
  lemma MapSymbolExamples()
    ensures MapSymbol(Some("US Tech 100")) == Some("NASDAQ")
    ensures MapSymbol(Some("Spot Gold")) == Some("XAUUSD")
    ensures MapSymbol(Some("Spot Gold - Cash")) == Some("XAUUSD")
    ensures MapSymbol(Some("Wall Street")) == Some("Wall Street")
    ensures MapSymbol(None) == None
  {
    ExactExample();
    CaseInsensitiveExample();
    PrefixExample();
    UnmatchedExample();
  }
}
