/** What the optimizer's store table holds for a list described by its shelves, and what it costs. */
module MarketTables {
  import opened OrderedMaps
  import opened BasketTypes
  import opened StoreTables
  import opened Ranking
  import opened Grouping
  import opened GreedyCover
  import opened Delivery
  import opened DeliveryOptimality
  import opened Convenience
  import opened StoreCounts
  import opened Markets

  lemma {:induction false} AllMatched(reqs: seq<Requirement>, offers: OfferBook)
    requires forall i :: 0 <= i < |reqs| ==> OffersFor(offers, reqs[i].key) != []
    ensures Matched(reqs, offers) == reqs
  {
    if reqs != [] {
      AllMatched(reqs[..|reqs| - 1], offers);
    }
  }

  /** The keys of what a store sells. */
  function KeysSold(m: Market, s: StoreCode): set<Key> {
    set i | 0 <= i < |m.names| && s in m.sellers(m.names[i]) :: Key(m.names[i])
  }

  ghost predicate MarketTable(m: Market, table: StoreTable) {
    Proper(m) && IsStoreTable(table, List(m.names), BookOf(m)) && ValidTable(table)
  }

  lemma MarketIsMatched(m: Market)
    requires Proper(m)
    ensures Matched(List(m.names), BookOf(m)) == List(m.names) && DistinctKeys(List(m.names))
  {
    DistinctList(m);
    forall i | 0 <= i < |m.names|
      ensures OffersFor(BookOf(m), List(m.names)[i].key) != []
    {
      ListFacts(m, i);
    }
    AllMatched(List(m.names), BookOf(m));
  }

  lemma SoldKey(m: Market, s: StoreCode, k: Key)
    ensures k in KeysSold(m, s) ==> k in KeysOf(List(m.names))
    ensures forall i :: 0 <= i < |m.names| && k == Key(m.names[i]) ==>
              (k in KeysSold(m, s) <==> s in m.sellers(m.names[i]))
  {
    if k in KeysSold(m, s) {
      var i :| 0 <= i < |m.names| && s in m.sellers(m.names[i]) && k == Key(m.names[i]);
      assert List(m.names)[i].key == k;
    }
  }

  lemma RowHoldsKey(m: Market, table: StoreTable, s: StoreCode, k: Key)
    requires MarketTable(m, table)
    ensures k in RowAt(table, s).entries <==> k in KeysSold(m, s)
  {
    var reqs := List(m.names);
    DistinctList(m);
    RowKeys(reqs, BookOf(m), s);
    assert RowAt(table, s) == Row(reqs, BookOf(m), s);
    SoldKey(m, s, k);
    if k in KeysOf(reqs) {
      var i :| 0 <= i < |reqs| && reqs[i].key == k;
      StockIsSold(table, reqs, BookOf(m), i, s);
      ListFacts(m, i);
    }
  }

  lemma RowHolds(m: Market, table: StoreTable, s: StoreCode)
    requires MarketTable(m, table)
    ensures RowAt(table, s).Valid() && RowAt(table, s).entries.Keys == KeysSold(m, s)
    ensures |RowAt(table, s).order| == |KeysSold(m, s)|
  {
    DistinctList(m);
    RowKeys(List(m.names), BookOf(m), s);
    assert RowAt(table, s) == Row(List(m.names), BookOf(m), s);
    forall k {
      RowHoldsKey(m, table, s, k);
    }
    assert RowAt(table, s).entries.Keys == KeysSold(m, s);
    OrderCount(RowAt(table, s), KeysSold(m, s));
  }

  lemma OrderCount(row: Basket, keys: set<Key>)
    requires row.Valid() && row.entries.Keys == keys
    ensures |row.order| == |keys|
  {
    DistinctCardinality(row.order);
    assert keys == set k | k in row.order;
  }

  /** What a store adds to a primary is what it sells and the primary does not. */
  lemma ExtraIs(m: Market, table: StoreTable, p: StoreCode, s: StoreCode)
    requires MarketTable(m, table) && DistinctKeys(List(m.names))
    ensures Extra(List(m.names), table, p, s).Valid()
    ensures |Extra(List(m.names), table, p, s).order| == |KeysSold(m, s) - KeysSold(m, p)|
  {
    var extra := Extra(List(m.names), table, p, s);
    ExtraIsValid(List(m.names), table, p, s);
    forall k {
      ExtraHoldsKey(m, table, p, s, k);
    }
    assert extra.entries.Keys == KeysSold(m, s) - KeysSold(m, p);
    OrderCount(extra, KeysSold(m, s) - KeysSold(m, p));
  }

  lemma ExtraHoldsKey(m: Market, table: StoreTable, p: StoreCode, s: StoreCode, k: Key)
    requires MarketTable(m, table) && DistinctKeys(List(m.names))
    ensures k in Extra(List(m.names), table, p, s).entries <==> k in KeysSold(m, s) && k !in KeysSold(m, p)
  {
    var reqs := List(m.names);
    ExtraIsValid(reqs, table, p, s);
    RowHoldsKey(m, table, p, k);
    RowHoldsKey(m, table, s, k);
    SoldKey(m, s, k);
    if k in KeysOf(reqs) {
      var i :| 0 <= i < |reqs| && reqs[i].key == k;
      ExtraHolds(reqs, table, p, s, i);
    }
  }

  function PriceAt(m: Market, s: StoreCode): int {
    m.price(Initial(s))
  }

  lemma RowPrice(m: Market, table: StoreTable, s: StoreCode, k: Key)
    requires MarketTable(m, table) && k in RowAt(table, s).entries
    ensures RowAt(table, s).entries[k].costCents == PriceAt(m, s)
  {
    var reqs := List(m.names);
    DistinctList(m);
    RowKeys(reqs, BookOf(m), s);
    assert RowAt(table, s) == Row(reqs, BookOf(m), s);
    var i :| 0 <= i < |reqs| && reqs[i].key == k;
    RowIsCheapest(reqs, BookOf(m), s, i);
    ListFacts(m, i);
    PackCost(m, s, m.names[i]);
  }

  /** `n` packs at one price. */
  function Packs(n: nat, price: int): int {
    n * price
  }

  lemma {:induction false} UniformCost(lines: seq<Assignment>, price: int)
    requires forall i :: 0 <= i < |lines| ==> lines[i].costCents == price
    ensures TotalCost(lines) == Packs(|lines|, price)
  {
    if lines != [] {
      UniformCost(lines[..|lines| - 1], price);
      assert |lines| * price == (|lines| - 1) * price + price;
    }
  }

  lemma GrandInMarket(m: Market, table: StoreTable, p: StoreCode)
    requires MarketTable(m, table)
    ensures RowAt(table, p).Valid()
    ensures PrimaryGrand(table, FreeDelivery, p) == Packs(|KeysSold(m, p)|, PriceAt(m, p))
  {
    RowHolds(m, table, p);
    var row := RowAt(table, p);
    forall i | 0 <= i < |row.Values()|
      ensures row.Values()[i].costCents == PriceAt(m, p)
    {
      RowPrice(m, table, p, row.order[i]);
    }
    UniformCost(row.Values(), PriceAt(m, p));
  }

  lemma ExtraCost(m: Market, table: StoreTable, p: StoreCode, s: StoreCode)
    requires MarketTable(m, table) && DistinctKeys(List(m.names))
    ensures Extra(List(m.names), table, p, s).Valid()
    ensures TotalCost(Extra(List(m.names), table, p, s).Values()) == Packs(More(m, p, s), PriceAt(m, s))
  {
    var extra := Extra(List(m.names), table, p, s);
    ExtraIs(m, table, p, s);
    ExtraIsValid(List(m.names), table, p, s);
    forall i | 0 <= i < |extra.Values()|
      ensures extra.Values()[i].costCents == PriceAt(m, s)
    {
      RowPrice(m, table, s, extra.order[i]);
    }
    UniformCost(extra.Values(), PriceAt(m, s));
  }

  lemma NoFee(m: Market, table: StoreTable, s: StoreCode, subtotal: int)
    requires MarketTable(m, table) && DistinctKeys(List(m.names))
    ensures DeliveryForSubtotal(subtotal, RowAt(table, s)) == 0
  {
    DeliversFree(m);
    RowAllAt(List(m.names), BookOf(m), table, FreeDelivery, s);
  }

  /** How much a store sells that the primary does not. */
  function More(m: Market, p: StoreCode, s: StoreCode): nat {
    |KeysSold(m, s) - KeysSold(m, p)|
  }

  lemma RankInMarket(m: Market, table: StoreTable, p: StoreCode, s: StoreCode)
    requires MarketTable(m, table) && DistinctKeys(List(m.names))
    ensures |Extra(List(m.names), table, p, s).order| == More(m, p, s)
    ensures ComplementRank(List(m.names), table, p)(s) == Rank(More(m, p, s), Packs(More(m, p, s), PriceAt(m, s)))
  {
    ExtraIs(m, table, p, s);
    ExtraCost(m, table, p, s);
    NoFee(m, table, s, TotalCost(Extra(List(m.names), table, p, s).Values()));
  }

  /** Who is in the table, and who reaches the bar. */
  lemma InTable(m: Market, table: StoreTable, s: StoreCode)
    requires MarketTable(m, table)
    ensures s in table.entries <==> KeysSold(m, s) != {}
    ensures Qualifies(List(m.names), table, s) <==>
              KeysSold(m, s) != {} && |KeysSold(m, s)| >= CoverageBar(|m.names|)
  {
    RowHolds(m, table, s);
    assert RowAt(table, s) == Row(List(m.names), BookOf(m), s);
    assert |KeysSold(m, s)| == 0 <==> KeysSold(m, s) == {};
  }

  /** A store that adds something is one of the table's. */
  lemma AddsInMarket(m: Market, table: StoreTable, p: StoreCode, s: StoreCode)
    requires MarketTable(m, table) && DistinctKeys(List(m.names))
    ensures Adds(List(m.names), table, p, s) <==> s != p && More(m, p, s) > 0
  {
    InTable(m, table, s);
    ExtraIs(m, table, p, s);
    if KeysSold(m, s) == {} {
      assert KeysSold(m, s) - KeysSold(m, p) == {};
    }
  }

  /** The complement adds the most that any store can. */
  lemma BestAddsMost(m: Market, table: StoreTable, p: StoreCode, s: StoreCode)
    requires MarketTable(m, table) && DistinctKeys(List(m.names)) && s != p && More(m, p, s) > 0
    ensures var best := BestComplement(List(m.names), table, p);
      best.Some? && best.value != p && More(m, p, s) <= More(m, p, best.value)
  {
    BestComplementIsMaximal(List(m.names), table, p);
    AddsInMarket(m, table, p, s);
    ExtraIs(m, table, p, s);
    var best := BestComplement(List(m.names), table, p);
    if best.Some? {
      ExtraIs(m, table, p, best.value);
    }
  }

  lemma PacksCostSomething(n: nat, price: int)
    requires price >= 0
    ensures Packs(n, price) >= 0
  {
  }

  /** What a primary with its complement costs. */
  lemma ComboCost(m: Market, table: StoreTable, p: StoreCode)
    requires MarketTable(m, table) && DistinctKeys(List(m.names)) && KeysSold(m, p) != {}
    ensures var best := BestComplement(List(m.names), table, p);
      && Combo(List(m.names), table, p, best).Valid()
      && GrandOf(Combo(List(m.names), table, p, best).Values())
         == Packs(|KeysSold(m, p)|, PriceAt(m, p))
            + if best.None? then 0 else Packs(More(m, p, best.value), PriceAt(m, best.value))
  {
    var best := BestComplement(List(m.names), table, p);
    DeliversFree(m);
    InTable(m, table, p);
    BestComplementIsMaximal(List(m.names), table, p);
    ComboGrand(List(m.names), BookOf(m), table, FreeDelivery, p, best);
    GrandInMarket(m, table, p);
    if best.Some? {
      RankInMarket(m, table, p, best.value);
    }
  }
}
