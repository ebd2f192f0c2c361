/** Where the optimizer's promises stop: lists the service can prepare that show it. */
module Limits {
  import opened Options
  import opened BasketTypes
  import opened Picking
  import opened StoreTables
  import opened Grouping
  import opened GreedyCover
  import opened Delivery
  import opened DeliveryOptimality
  import opened Convenience
  import opened Results
  import opened Optimizer
  import opened Guarantees
  import opened StoreCounts
  import opened Markets
  import opened MarketTables

  /** Every requirement has one seller, and no two share theirs. */
  ghost predicate OneSellerEach(reqs: seq<Requirement>, offers: OfferBook) {
    && (forall i :: 0 <= i < |reqs| ==> |OffersFor(offers, reqs[i].key)| == 1)
    && (forall i, j :: 0 <= i < j < |reqs| ==>
          OffersFor(offers, reqs[i].key)[0].storeCode != OffersFor(offers, reqs[j].key)[0].storeCode)
  }

  /** A store that is the only seller of at most one requirement has a row of at most one entry. */
  lemma {:induction false} RowOfOne(reqs: seq<Requirement>, offers: OfferBook, s: StoreCode)
    requires DistinctKeys(reqs) && OneSellerEach(reqs, offers)
    ensures |Row(reqs, offers, s).order| <= 1
    ensures (forall i :: 0 <= i < |reqs| ==> OffersFor(offers, reqs[i].key)[0].storeCode != s) ==>
              Row(reqs, offers, s).order == []
  {
    if reqs != [] {
      var init, r := reqs[..|reqs| - 1], reqs[|reqs| - 1];
      RowOfOne(init, offers, s);
      SoldAtStore(r, offers, s);
    }
  }

  lemma {:induction false} DistinctStores(lines: seq<Assignment>)
    requires forall i, j :: 0 <= i < j < |lines| ==> lines[i].offer.storeCode != lines[j].offer.storeCode
    ensures |StoresOf(lines)| == |lines|
  {
    if lines != [] {
      var init := lines[..|lines| - 1];
      DistinctStores(init);
      StoresOfFacts(init);
    }
  }

  /** Each requirement bought from its only seller. */
  function SoleLines(reqs: seq<Requirement>, offers: OfferBook): (lines: seq<Assignment>)
    requires forall i :: 0 <= i < |reqs| ==> OffersFor(offers, reqs[i].key) != []
    ensures |lines| == |reqs|
    ensures forall i :: 0 <= i < |lines| ==> lines[i].offer == OffersFor(offers, reqs[i].key)[0]
  {
    if reqs == [] then []
    else
      var r := reqs[|reqs| - 1];
      SoleLines(reqs[..|reqs| - 1], offers) + [MakeAssignment(r, OffersFor(offers, r.key)[0])]
  }

  lemma SoleOffer(r: Requirement, offers: OfferBook)
    requires |OffersFor(offers, r.key)| == 1
    ensures CheapestPick(offers, None)(r) == Some(MakeAssignment(r, OffersFor(offers, r.key)[0]))
  {
    CheapestOfIsFirstLeast(r, OffersFor(offers, r.key), None);
    assert Allowed(None, OffersFor(offers, r.key)[0].storeCode);
  }

  lemma {:induction false} OneLineEach(reqs: seq<Requirement>, offers: OfferBook)
    requires DistinctKeys(reqs) && OneSellerEach(reqs, offers)
    ensures PickAll(reqs, CheapestPick(offers, None)).Valid()
    ensures PickAll(reqs, CheapestPick(offers, None)).Values() == SoleLines(reqs, offers)
  {
    if reqs != [] {
      var init, r := reqs[..|reqs| - 1], reqs[|reqs| - 1];
      OneLineEach(init, offers);
      SoleOffer(r, offers);
      PickAllSnoc(reqs, CheapestPick(offers, None));
    }
  }

  lemma SoleLinesSpread(reqs: seq<Requirement>, offers: OfferBook)
    requires OneSellerEach(reqs, offers)
    ensures |StoresOf(SoleLines(reqs, offers))| == |reqs|
  {
    DistinctStores(SoleLines(reqs, offers));
  }

  lemma NoStoreReachesTheBar(reqs: seq<Requirement>, offers: OfferBook, table: StoreTable, q: StoreCode)
    requires DistinctKeys(reqs) && OneSellerEach(reqs, offers) && |reqs| >= 2
    requires IsStoreTable(table, reqs, offers)
    ensures !Qualifies(reqs, table, q)
  {
    RowOfOne(reqs, offers, q);
    assert RowAt(table, q) == Row(reqs, offers, q);
  }

  /** DELIVERY is not capped at two stores: n requirements with n separate sellers take n deliveries. */
  lemma DeliveryTakesAsManyStores(
    reqs: seq<Requirement>, offers: OfferBook, table: StoreTable, primary: Option<StoreCode>, b: Basket)
    requires DistinctKeys(reqs) && OneSellerEach(reqs, offers) && |reqs| >= 2
    requires IsDelivery(reqs, offers, table, primary, b)
    ensures b.Valid() && |StoresOf(b.Values())| == |reqs|
  {
    AllMatched(reqs, offers);
    DeliveryHasPrimary(reqs, offers, table, primary, b);
    if primary.Some? {
      NoStoreReachesTheBar(reqs, offers, table, primary.value);
    }
    DeliveryFallsBack(reqs, offers, table, b);
    OneLineEach(reqs, offers);
    SoleLinesSpread(reqs, offers);
  }

  // ---- DELIVERY with as many stores as there are ----

  /** A name of its own for every number. */
  function Name(n: nat): string {
    seq(n, _ => 'x')
  }

  function SeparateNames(n: nat): seq<string> {
    seq(n, i requires 0 <= i < n => Name(i + 1))
  }

  /** `n` things to buy, each sold at one store of its own. */
  function Separate(n: nat): Market {
    Market(SeparateNames(n), (name: string) => if 1 <= |name| <= 7 then [CODES[|name| - 1]] else [], (c: char) => 100)
  }

  lemma SeparateProper(n: nat)
    requires n <= 7
    ensures Proper(Separate(n)) && DistinctKeys(List(Separate(n).names))
  {
    var m := Separate(n);
    forall i, j | 0 <= i < j < n
      ensures m.names[i] != m.names[j]
    {
      assert |m.names[i]| != |m.names[j]|;
    }
    SevenCodes();
    DistinctList(m);
  }

  lemma SeparateShelf(n: nat, i: nat)
    requires i < n <= 7 && Proper(Separate(n))
    ensures OffersFor(BookOf(Separate(n)), List(Separate(n).names)[i].key)
            == [Pack(Separate(n), CODES[i], Separate(n).names[i])]
  {
    var m := Separate(n);
    ListFacts(m, i);
    assert |m.names[i]| == i + 1;
    assert m.sellers(m.names[i]) == [CODES[i]];
  }

  lemma SeparateSellers(n: nat)
    requires n <= 7 && Proper(Separate(n))
    ensures OneSellerEach(List(Separate(n).names), BookOf(Separate(n)))
  {
    SevenCodes();
    forall i | 0 <= i < n
      ensures OffersFor(BookOf(Separate(n)), List(Separate(n).names)[i].key)
              == [Pack(Separate(n), CODES[i], Separate(n).names[i])]
    {
      SeparateShelf(n, i);
    }
  }

  /** For every n from 2 to 7 there is a list on which DELIVERY uses n stores. */
  lemma NoCapOnStores(n: nat, b: Basket, baseline: Option<real>, res: OptimizationResult)
    requires 2 <= n <= 7
    requires ResultOf(DELIVERY, List(Separate(n).names), BookOf(Separate(n)), b, baseline, res)
    ensures Proper(Separate(n)) && res.storeCount == n
  {
    var reqs, offers := List(Separate(n).names), BookOf(Separate(n));
    SeparateProper(n);
    SeparateSellers(n);
    ResultBalances(DELIVERY, reqs, offers, b, baseline, res);
    var table, primary := DeliveryRun(reqs, offers, b, baseline, res);
    DeliveryTakesAsManyStores(reqs, offers, table, primary, b);
  }

  /** More than seven stores cannot be, whatever the strategy, while offers come from the seven codes. */
  lemma AtMostSevenStores(
    s: Strategy, reqs: seq<Requirement>, offers: OfferBook, b: Basket, baseline: Option<real>,
    res: OptimizationResult)
    requires DistinctKeys(reqs) && ResultOf(s, reqs, offers, b, baseline, res)
    requires AllSellers(reqs, offers, CODES)
    ensures res.storeCount <= 7
  {
    ResultBalances(s, reqs, offers, b, baseline, res);
    OutcomeBuys(s, reqs, offers, b);
    StoresAreSellers(reqs, offers, b, CODES);
  }

  // ---- DELIVERY with a dear complement ----

  const MAIN := CODES[0]
  const BOTH := CODES[1]
  const CHEAP := CODES[2]
  const REST := CODES[3]

  const FIVE: seq<string> := ["a", "b", "c", "d", "e"]

  /** MAIN lacks d and e; BOTH has the two at 1000, CHEAP only d, at 100. */
  function Dear(): Market {
    Market(FIVE, DearSellers, (c: char) => if c == 'S' then 1000 else 100)
  }

  function DearSellers(name: string): seq<StoreCode> {
    if name == "d" then [BOTH, CHEAP] else if name == "e" then [BOTH] else [MAIN]
  }

  lemma FiveNames()
    ensures |FIVE| == 5 && forall i, j :: 0 <= i < j < 5 ==> FIVE[i] != FIVE[j]
    ensures forall i :: 0 <= i < 5 ==> FIVE[i] != ""
  {
  }

  lemma DearKeys(s: StoreCode)
    ensures KeysSold(Dear(), MAIN) == {Key("a"), Key("b"), Key("c")}
    ensures KeysSold(Dear(), BOTH) == {Key("d"), Key("e")} && KeysSold(Dear(), CHEAP) == {Key("d")}
    ensures s != MAIN && s != BOTH && s != CHEAP ==> KeysSold(Dear(), s) == {}
  {
    SevenCodes();
    forall k
      ensures k in KeysSold(Dear(), s) <==> exists i :: 0 <= i < 5 && k == Key(FIVE[i]) && s in DearSellers(FIVE[i])
    {
    }
    assert FIVE[0] == "a" && FIVE[1] == "b" && FIVE[2] == "c" && FIVE[3] == "d" && FIVE[4] == "e";
  }

  lemma DearProper()
    ensures Proper(Dear())
  {
    FiveNames();
  }

  lemma DearMore(s: StoreCode)
    ensures More(Dear(), MAIN, s) == if s == BOTH then 2 else if s == CHEAP then 1 else 0
  {
    DearKeys(s);
    SevenCodes();
    assert KeysSold(Dear(), BOTH) - KeysSold(Dear(), MAIN) == {Key("d"), Key("e")};
    assert KeysSold(Dear(), CHEAP) - KeysSold(Dear(), MAIN) == {Key("d")};
    assert KeysSold(Dear(), MAIN) - KeysSold(Dear(), MAIN) == {};
    if s != MAIN && s != BOTH && s != CHEAP {
      assert KeysSold(Dear(), s) - KeysSold(Dear(), MAIN) == {};
    }
  }

  /** What matters about the list: one store adds the most, another adds something for less. */
  ghost predicate IsDear(m: Market) {
    && Proper(m) && |m.names| == 5 && |KeysSold(m, MAIN)| == 3
    && (forall s :: More(m, MAIN, s) == if s == BOTH then 2 else if s == CHEAP then 1 else 0)
    && PriceAt(m, BOTH) == 1000 && PriceAt(m, CHEAP) == 100 && BOTH != MAIN && CHEAP != MAIN
  }

  lemma DearIsDear()
    ensures IsDear(Dear())
  {
    FiveNames();
    SevenCodes();
    DearKeys(MAIN);
    forall s {
      DearMore(s);
    }
  }

  /**
   * Here DELIVERY complements the main store at 2000 although another store adds
   * something at 100.
   */
  lemma DearComplement(m: Market, table: StoreTable)
    requires IsDear(m) && IsStoreTable(table, Matched(List(m.names), BookOf(m)), BookOf(m)) && ValidTable(table)
    ensures DistinctKeys(List(m.names)) && Matched(List(m.names), BookOf(m)) == List(m.names)
    ensures Qualifies(List(m.names), table, MAIN)
    ensures BestComplement(List(m.names), table, MAIN) == Some(BOTH) && Adds(List(m.names), table, MAIN, CHEAP)
    ensures var rank := ComplementRank(List(m.names), table, MAIN);
      rank(BOTH).cost == 2000 && rank(CHEAP).cost == 100
  {
    MarketIsMatched(m);
    InTable(m, table, MAIN);
    DearBest(m, table);
    DearCosts(m, table);
  }

  lemma DearBest(m: Market, table: StoreTable)
    requires IsDear(m) && MarketTable(m, table) && DistinctKeys(List(m.names))
    ensures BestComplement(List(m.names), table, MAIN) == Some(BOTH) && Adds(List(m.names), table, MAIN, CHEAP)
  {
    assert More(m, MAIN, BOTH) == 2 && More(m, MAIN, CHEAP) == 1;
    AddsInMarket(m, table, MAIN, CHEAP);
    BestAddsMost(m, table, MAIN, BOTH);
  }

  lemma DearCosts(m: Market, table: StoreTable)
    requires IsDear(m) && MarketTable(m, table) && DistinctKeys(List(m.names))
    ensures ComplementRank(List(m.names), table, MAIN)(BOTH).cost == 2000
    ensures ComplementRank(List(m.names), table, MAIN)(CHEAP).cost == 100
  {
    RankInMarket(m, table, MAIN, BOTH);
    RankInMarket(m, table, MAIN, CHEAP);
  }

  // ---- DELIVERY without something on offer ----

  /** MAIN has a, b, c at 100; BOTH has a, b, d and REST has c, e, at 1000. */
  function Short(): Market {
    Market(FIVE, ShortSellers, (c: char) => if c == 'F' then 100 else 1000)
  }

  function ShortSellers(name: string): seq<StoreCode> {
    if name == "c" then [MAIN, REST]
    else if name == "d" then [BOTH]
    else if name == "e" then [REST]
    else [MAIN, BOTH]
  }

  lemma ShortKeys(s: StoreCode)
    ensures KeysSold(Short(), MAIN) == {Key("a"), Key("b"), Key("c")}
    ensures KeysSold(Short(), BOTH) == {Key("a"), Key("b"), Key("d")}
    ensures KeysSold(Short(), REST) == {Key("c"), Key("e")}
    ensures s != MAIN && s != BOTH && s != REST ==> KeysSold(Short(), s) == {}
  {
    SevenCodes();
    forall k
      ensures k in KeysSold(Short(), s) <==> exists i :: 0 <= i < 5 && k == Key(FIVE[i]) && s in ShortSellers(FIVE[i])
    {
    }
    assert FIVE[0] == "a" && FIVE[1] == "b" && FIVE[2] == "c" && FIVE[3] == "d" && FIVE[4] == "e";
  }

  lemma ShortMore(s: StoreCode)
    ensures More(Short(), MAIN, s) == if s == BOTH || s == REST then 1 else 0
  {
    ShortKeys(s);
    SevenCodes();
    assert KeysSold(Short(), BOTH) - KeysSold(Short(), MAIN) == {Key("d")};
    assert KeysSold(Short(), REST) - KeysSold(Short(), MAIN) == {Key("e")};
    assert KeysSold(Short(), MAIN) - KeysSold(Short(), MAIN) == {};
    if s != MAIN && s != BOTH && s != REST {
      assert KeysSold(Short(), s) - KeysSold(Short(), MAIN) == {};
    }
  }

  /** How much each store sells, and beyond MAIN. */
  ghost predicate ShortStock(m: Market) {
    && (forall s :: |KeysSold(m, s)| == if s == MAIN || s == BOTH then 3 else if s == REST then 2 else 0)
    && (forall s :: More(m, MAIN, s) == if s == BOTH || s == REST then 1 else 0)
  }

  ghost predicate ShortPrices(m: Market) {
    && PriceAt(m, MAIN) == 100 && PriceAt(m, BOTH) == PriceAt(m, REST) == 1000
    && forall s :: PriceAt(m, s) >= 0
  }

  ghost predicate ShortShelf(m: Market) {
    && |m.names| == 5
    && m.sellers(m.names[3]) == [BOTH] && m.sellers(m.names[4]) == [REST]
    && forall i :: 0 <= i < 5 ==> BOTH in m.sellers(m.names[i]) || REST in m.sellers(m.names[i])
  }

  /** What matters about the list: its two primaries, what they lack, and what they cost. */
  ghost predicate IsShort(m: Market) {
    && Proper(m) && ShortStock(m) && ShortPrices(m) && ShortShelf(m)
    && MAIN != BOTH && MAIN != REST && BOTH != REST
  }

  lemma ShortShelves()
    ensures ShortShelf(Short()) && Proper(Short())
  {
    FiveNames();
    assert FIVE[0] == "a" && FIVE[1] == "b" && FIVE[2] == "c" && FIVE[3] == "d" && FIVE[4] == "e";
  }

  lemma ShortPricesHold()
    ensures ShortPrices(Short())
  {
    SevenCodes();
  }

  lemma ShortStockHolds()
    ensures ShortStock(Short())
  {
    forall s
      ensures |KeysSold(Short(), s)| == if s == MAIN || s == BOTH then 3 else if s == REST then 2 else 0
      ensures More(Short(), MAIN, s) == if s == BOTH || s == REST then 1 else 0
    {
      SevenCodes();
      ShortKeys(s);
      ShortMore(s);
    }
  }

  lemma ShortIsShort()
    ensures IsShort(Short())
  {
    SevenCodes();
    ShortShelves();
    ShortPricesHold();
    ShortStockHolds();
  }

  /** MAIN and BOTH reach the bar, nobody else does. */
  lemma ShortQualifies(m: Market, table: StoreTable, q: StoreCode)
    requires IsShort(m) && MarketTable(m, table)
    ensures Qualifies(List(m.names), table, q) <==> q == MAIN || q == BOTH
  {
    InTable(m, table, q);
  }

  /** MAIN and its complement cost three at 100 and one at 1000. */
  lemma MainCombo(m: Market, table: StoreTable)
    requires IsShort(m) && MarketTable(m, table) && DistinctKeys(List(m.names))
    ensures var best := BestComplement(List(m.names), table, MAIN);
      && (best == Some(BOTH) || best == Some(REST))
      && Combo(List(m.names), table, MAIN, best).Valid()
      && GrandOf(Combo(List(m.names), table, MAIN, best).Values()) == 1300
  {
    BestAddsMost(m, table, MAIN, BOTH);
    ComboCost(m, table, MAIN);
  }

  /** The other primary costs at least its own three at 1000. */
  lemma BothCombo(m: Market, table: StoreTable)
    requires IsShort(m) && MarketTable(m, table) && DistinctKeys(List(m.names))
    ensures var best := BestComplement(List(m.names), table, BOTH);
      && Combo(List(m.names), table, BOTH, best).Valid()
      && GrandOf(Combo(List(m.names), table, BOTH, best).Values()) >= 3000
  {
    ComboCost(m, table, BOTH);
    var best := BestComplement(List(m.names), table, BOTH);
    if best.Some? {
      PacksCostSomething(More(m, BOTH, best.value), PriceAt(m, best.value));
    }
  }

  /** Yet that one, with REST as its complement, buys everything. */
  lemma BothBuysAll(m: Market, table: StoreTable)
    requires IsShort(m) && MarketTable(m, table) && DistinctKeys(List(m.names))
    ensures ComboHasAll(List(m.names), table, BOTH, Some(REST))
  {
    forall i | 0 <= i < |m.names|
      ensures List(m.names)[i].key in Combo(List(m.names), table, BOTH, Some(REST)).entries
    {
      ComboHolds(List(m.names), BookOf(m), table, BOTH, Some(REST), i);
      ListFacts(m, i);
    }
  }

  lemma MainIsPrimary(m: Market, table: StoreTable, primary: Option<StoreCode>, b: Basket)
    requires IsShort(m) && MarketTable(m, table) && DistinctKeys(List(m.names))
    requires Matched(List(m.names), BookOf(m)) == List(m.names)
    requires IsDelivery(List(m.names), BookOf(m), table, primary, b)
    ensures primary == Some(MAIN)
  {
    var reqs, offers := List(m.names), BookOf(m);
    DeliversFree(m);
    ShortQualifies(m, table, MAIN);
    DeliveryHasPrimary(reqs, offers, table, primary, b);
    BestComplementIsMaximal(reqs, table, MAIN);
    DeliveryIsOptimal(reqs, offers, FreeDelivery, table, primary, b, MAIN, BestComplement(reqs, table, MAIN));
    MainCombo(m, table);
    BothCombo(m, table);
    if primary.Some? {
      ShortQualifies(m, table, primary.value);
    }
  }

  lemma LeavesOne(m: Market, table: StoreTable, primary: Option<StoreCode>, b: Basket) returns (i: nat)
    requires IsShort(m) && MarketTable(m, table) && DistinctKeys(List(m.names))
    requires Matched(List(m.names), BookOf(m)) == List(m.names)
    requires IsDelivery(List(m.names), BookOf(m), table, primary, b)
    ensures 3 <= i < 5 && List(m.names)[i].key !in b.entries
  {
    MainIsPrimary(m, table, primary, b);
    MainCombo(m, table);
    var best := BestComplement(List(m.names), table, MAIN);
    i := if best == Some(BOTH) then 4 else 3;
    DeliveryBuysExactly(List(m.names), BookOf(m), table, primary, b, i);
    NotSold(m, i, best.value);
  }

  /** Neither MAIN nor that complement sells the item. */
  lemma NotSold(m: Market, i: nat, c: StoreCode)
    requires IsShort(m) && (if c == BOTH then i == 4 else i == 3 && c == REST)
    ensures !Sells(BookOf(m), List(m.names)[i].key, MAIN) && !Sells(BookOf(m), List(m.names)[i].key, c)
  {
    ListFacts(m, i);
  }

  /** DELIVERY prints an item as unmatched here though it is on offer, and some combination has it all. */
  lemma OfferedButLeftOut(m: Market, b: Basket, baseline: Option<real>, res: OptimizationResult)
    returns (i: nat, table: StoreTable)
    requires IsShort(m) && ResultOf(DELIVERY, List(m.names), BookOf(m), b, baseline, res)
    ensures i < |m.names| && OffersFor(BookOf(m), List(m.names)[i].key) != []
    ensures |res.items| == |m.names| && res.items[i].unmatched
    ensures MarketTable(m, table) && DistinctKeys(List(m.names))
    ensures Qualifies(List(m.names), table, BOTH) && ComboHasAll(List(m.names), table, BOTH, Some(REST))
  {
    MarketIsMatched(m);
    var primary;
    table, primary := DeliveryRun(List(m.names), BookOf(m), b, baseline, res);
    i := LeavesOne(m, table, primary, b);
    ListFacts(m, i);
    ShortQualifies(m, table, BOTH);
    BothBuysAll(m, table);
    assert IsItemOf(res.items[i], List(m.names)[i], b);
  }
}
