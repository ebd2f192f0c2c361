/** What a shopper may rely on in the optimizer's results. */
module Guarantees {
  import opened Options
  import opened OrderedMaps
  import opened BasketTypes
  import opened Picking
  import opened StoreTables
  import opened Grouping
  import opened GreedyCover
  import opened Convenience
  import opened Delivery
  import opened DeliveryOptimality
  import opened Results
  import opened Optimizer
  import SetCover

  /** Every result's books balance, whatever the strategy. */
  lemma ResultBalances(
    s: Strategy, reqs: seq<Requirement>, offers: OfferBook, b: Basket, baseline: Option<real>,
    res: OptimizationResult)
    requires DistinctKeys(reqs) && ResultOf(s, reqs, offers, b, baseline, res)
    ensures res.totalCents == TotalCost(b.Values()) == SumItems(res.items) == SumStoreSubtotals(res.storeBreakdown)
    ensures SumItemCounts(res.storeBreakdown) + |res.unmatchedIngredients| == |reqs|
    ensures res.grandTotalCents == GrandOf(b.Values())
    ensures res.storeCount == |StoresOf(b.Values())|
    ensures forall i :: 0 <= i < |res.items| ==>
              res.items[i].totalCents == res.items[i].quantity * res.items[i].unitPriceCents
  {
    OutcomeBuys(s, reqs, offers, b);
    BuysIsBasketOf(reqs, offers, b);
    BooksBalance(res, s, reqs, b, baseline);
  }

  // ---- CHEAPEST against the rest ----

  /** Key by key, CHEAPEST pays no more than any other way of buying the same keys. */
  lemma CheapestPerKey(reqs: seq<Requirement>, offers: OfferBook, b: Basket, k: Key)
    requires DistinctKeys(reqs) && BoughtForKey(reqs, offers, b, k)
    ensures var cheapest := PickAll(reqs, CheapestPick(offers, None));
      k in cheapest.entries && cheapest.entries[k].costCents <= b.entries[k].costCents
  {
    var i, j :| 0 <= i < |reqs| && reqs[i].key == k && BoughtAt(reqs[i], OffersFor(offers, k), j, b.entries[k]);
    PickAllFacts(reqs, CheapestPick(offers, None));
    CheapestOfIsFirstLeast(reqs[i], OffersFor(offers, k), None);
  }

  /** On the keys any basket covers, CHEAPEST's assignments cost no more in total. */
  lemma CheapestOnCoveredKeys(reqs: seq<Requirement>, offers: OfferBook, b: Basket)
    requires DistinctKeys(reqs) && Buys(reqs, offers, b)
    ensures var cheapest := PickAll(reqs, CheapestPick(offers, None)).entries;
      && (forall i :: 0 <= i < |b.order| ==> b.order[i] in cheapest)
      && TotalCost(OMap(b.order, cheapest).Values()) <= TotalCost(b.Values())
  {
    var cheapest := PickAll(reqs, CheapestPick(offers, None)).entries;
    forall i | 0 <= i < |b.order|
      ensures b.order[i] in cheapest && cheapest[b.order[i]].costCents <= b.entries[b.order[i]].costCents
    {
      CheapestPerKey(reqs, offers, b, b.order[i]);
    }
    TotalCostMonotone(OMap(b.order, cheapest).Values(), b.Values());
  }

  ghost predicate CoversOffered(s: Strategy) {
    s == CHEAPEST || s == CONVENIENCE || s == QUALITY
  }

  lemma CoversExactlyOffered(s: Strategy, reqs: seq<Requirement>, offers: OfferBook, b: Basket, i: nat)
    requires DistinctKeys(reqs) && CoversOffered(s) && Outcome(s, reqs, offers, b) && i < |reqs|
    ensures reqs[i].key in b.entries <==> OffersFor(offers, reqs[i].key) != []
  {
    match s
    case CHEAPEST =>
      PicksBuyOneOffer(reqs, offers);
      PickAllFacts(reqs, CheapestPick(offers, None));
    case QUALITY =>
      PicksBuyOneOffer(reqs, offers);
      PickAllFacts(reqs, QualityPick(offers));
    case CONVENIENCE =>
      var table, selected :|
        Selection(reqs, offers, table, selected) && b == ConvenienceBasket(reqs, offers, KeySet(selected));
      ConvenienceCoversMatched(reqs, offers, table, selected, i);
  }

  /** CHEAPEST, CONVENIENCE and QUALITY leave out exactly what nobody offers. */
  lemma LeavesOnlyOfferless(
    s: Strategy, reqs: seq<Requirement>, offers: OfferBook, b: Basket, baseline: Option<real>,
    res: OptimizationResult, i: nat)
    requires DistinctKeys(reqs) && CoversOffered(s)
    requires ResultOf(s, reqs, offers, b, baseline, res) && i < |reqs|
    ensures res.items[i].unmatched <==> OffersFor(offers, reqs[i].key) == []
  {
    assert IsItemOf(res.items[i], reqs[i], b);
    CoversExactlyOffered(s, reqs, offers, b, i);
  }

  lemma CheapestItemByItem(s: Strategy, reqs: seq<Requirement>, offers: OfferBook, cheapest: Basket, b: Basket, i: nat)
    requires DistinctKeys(reqs) && CoversOffered(s) && i < |reqs|
    requires Outcome(CHEAPEST, reqs, offers, cheapest) && Outcome(s, reqs, offers, b)
    ensures reqs[i].key in b.entries <==> reqs[i].key in cheapest.entries
    ensures reqs[i].key in b.entries ==>
              cheapest.entries[reqs[i].key].costCents <= b.entries[reqs[i].key].costCents
  {
    CoversExactlyOffered(CHEAPEST, reqs, offers, cheapest, i);
    CoversExactlyOffered(s, reqs, offers, b, i);
    OutcomeBuys(s, reqs, offers, b);
    if reqs[i].key in b.entries {
      CheapestPerKey(reqs, offers, b, reqs[i].key);
    }
  }

  /** Hence CHEAPEST has the least item total of the three. */
  lemma CheapestIsLeastTotal(
    s: Strategy, reqs: seq<Requirement>, offers: OfferBook, cheapest: Basket, b: Basket, baseline: Option<real>,
    res0: OptimizationResult, res: OptimizationResult)
    requires DistinctKeys(reqs) && CoversOffered(s)
    requires ResultOf(CHEAPEST, reqs, offers, cheapest, baseline, res0)
    requires ResultOf(s, reqs, offers, b, baseline, res)
    ensures res0.totalCents <= res.totalCents
    ensures res0.unmatchedIngredients == res.unmatchedIngredients
  {
    ResultBalances(CHEAPEST, reqs, offers, cheapest, baseline, res0);
    ResultBalances(s, reqs, offers, b, baseline, res);
    forall i | 0 <= i < |reqs|
      ensures reqs[i].key in b.entries <==> reqs[i].key in cheapest.entries
      ensures reqs[i].key in b.entries ==>
                cheapest.entries[reqs[i].key].costCents <= b.entries[reqs[i].key].costCents
    {
      CheapestItemByItem(s, reqs, offers, cheapest, b, i);
    }
    ItemsCompare(res0.items, res.items, reqs, cheapest, b);
  }

  lemma {:induction false} ItemsCompare(
    xs: seq<ItemLine>, ys: seq<ItemLine>, reqs: seq<Requirement>, x: Basket, y: Basket)
    requires |xs| == |ys| == |reqs|
    requires forall i :: 0 <= i < |reqs| ==> IsItemOf(xs[i], reqs[i], x) && IsItemOf(ys[i], reqs[i], y)
    requires forall i :: 0 <= i < |reqs| ==> (reqs[i].key in y.entries <==> reqs[i].key in x.entries)
    requires forall i :: 0 <= i < |reqs| && reqs[i].key in y.entries ==>
               x.entries[reqs[i].key].costCents <= y.entries[reqs[i].key].costCents
    ensures SumItems(xs) <= SumItems(ys)
    ensures UnmatchedNames(reqs, x) == UnmatchedNames(reqs, y)
  {
    if reqs != [] {
      var n := |reqs| - 1;
      ItemsCompare(xs[..n], ys[..n], reqs[..n], x, y);
      assert IsItemOf(xs[n], reqs[n], x) && IsItemOf(ys[n], reqs[n], y);
    }
  }

  // ---- CONVENIENCE ----

  /**
   * CONVENIENCE delivers from at most k * H(n) stores when any k stores sell
   * everything that is sold, n being the number of requirements anyone sells.
   */
  lemma ConvenienceStoreCount(
    reqs: seq<Requirement>, offers: OfferBook, b: Basket, baseline: Option<real>, res: OptimizationResult,
    cover: seq<StoreCode>)
    requires DistinctKeys(reqs) && ResultOf(CONVENIENCE, reqs, offers, b, baseline, res)
    requires CoverSells(reqs, offers, cover)
    ensures res.storeCount as real <= SetCover.HarmonicBound(|cover|, |Matched(reqs, offers)|)
  {
    ResultBalances(CONVENIENCE, reqs, offers, b, baseline, res);
    var table, selected :|
      Selection(reqs, offers, table, selected) && b == ConvenienceBasket(reqs, offers, KeySet(selected));
    ConvenienceBound(reqs, offers, table, selected, cover);
    StoresAmongSelected(reqs, offers, table, selected);
  }

  lemma StoresAmongSelected(
    reqs: seq<Requirement>, offers: OfferBook, table: StoreTable, selected: seq<StoreCode>)
    requires DistinctKeys(reqs) && Selection(reqs, offers, table, selected)
    ensures ConvenienceBasket(reqs, offers, KeySet(selected)).Valid()
    ensures |StoresOf(ConvenienceBasket(reqs, offers, KeySet(selected)).Values())| <= |selected|
  {
    MatchedFacts(reqs, offers);
    PickedWithin(Matched(reqs, offers), offers, selected);
  }

  /** Picking among given stores buys at those stores only. */
  lemma PickedWithin(reqs: seq<Requirement>, offers: OfferBook, selected: seq<StoreCode>)
    requires DistinctKeys(reqs)
    ensures PickAll(reqs, CheapestPick(offers, Some(KeySet(selected)))).Valid()
    ensures |StoresOf(PickAll(reqs, CheapestPick(offers, Some(KeySet(selected)))).Values())| <= |selected|
  {
    var pick := CheapestPick(offers, Some(KeySet(selected)));
    var b := PickAll(reqs, pick);
    PickAllFacts(reqs, pick);
    var lines := b.Values();
    StoresOfFacts(lines);
    forall l | 0 <= l < |lines|
      ensures lines[l].offer.storeCode in selected
    {
      assert b.order[l] in b.entries;
      var m :| 0 <= m < |reqs| && reqs[m].key == b.order[l];
      CheapestOfIsFirstLeast(reqs[m], OffersFor(offers, reqs[m].key), Some(KeySet(selected)));
    }
    DistinctWithin(StoresOf(lines), selected);
  }

  /** One store that stocks everything is enough: a single delivery, at the least such total. */
  lemma ConvenienceSingleStore(
    reqs: seq<Requirement>, offers: OfferBook, stores: StoreCode -> StoreTerms, b: Basket, baseline: Option<real>,
    res: OptimizationResult, full: StoreCode)
    requires DistinctKeys(reqs) && ResultOf(CONVENIENCE, reqs, offers, b, baseline, res)
    requires FromStores(offers, stores)
    requires Matched(reqs, offers) != [] && StocksEverything(reqs, offers, full)
    ensures exists s :: StocksEverything(reqs, offers, s)
              && StoresOf(b.Values()) == [s] && res.storeCount == 1
              && res.totalCents == StoreTotal(reqs, offers, s) <= StoreTotal(reqs, offers, full)
              && res.grandTotalCents == res.totalCents + DeliveryFee(stores(s), res.totalCents)
  {
    ResultBalances(CONVENIENCE, reqs, offers, b, baseline, res);
    var table, selected := ConvenienceRun(reqs, offers, b, baseline, res);
    SingleStoreLines(reqs, offers, stores, table, selected, b, full);
    assert StocksEverything(reqs, offers, selected[0]);
  }

  lemma ConvenienceRun(
    reqs: seq<Requirement>, offers: OfferBook, b: Basket, baseline: Option<real>, res: OptimizationResult)
    returns (table: StoreTable, selected: seq<StoreCode>)
    requires ResultOf(CONVENIENCE, reqs, offers, b, baseline, res)
    ensures Selection(reqs, offers, table, selected) && b == ConvenienceBasket(reqs, offers, KeySet(selected))
  {
    table, selected :|
      Selection(reqs, offers, table, selected) && b == ConvenienceBasket(reqs, offers, KeySet(selected));
  }

  lemma DeliveryRun(
    reqs: seq<Requirement>, offers: OfferBook, b: Basket, baseline: Option<real>, res: OptimizationResult)
    returns (table: StoreTable, primary: Option<StoreCode>)
    requires ResultOf(DELIVERY, reqs, offers, b, baseline, res)
    ensures IsDelivery(reqs, offers, table, primary, b)
  {
    table, primary :| IsDelivery(reqs, offers, table, primary, b);
  }

  lemma SingleStoreLines(
    reqs: seq<Requirement>, offers: OfferBook, stores: StoreCode -> StoreTerms, table: StoreTable,
    selected: seq<StoreCode>, b: Basket, full: StoreCode)
    requires DistinctKeys(reqs) && FromStores(offers, stores)
    requires Selection(reqs, offers, table, selected) && b == ConvenienceBasket(reqs, offers, KeySet(selected))
    requires Matched(reqs, offers) != [] && StocksEverything(reqs, offers, full)
    ensures |selected| == 1 && StocksEverything(reqs, offers, selected[0])
    ensures b == RowAt(table, selected[0]) && b.Valid() && StoresOf(b.Values()) == [selected[0]]
    ensures TotalCost(b.Values()) == StoreTotal(reqs, offers, selected[0]) <= StoreTotal(reqs, offers, full)
    ensures GrandOf(b.Values()) ==
            TotalCost(b.Values()) + DeliveryFee(stores(selected[0]), TotalCost(b.Values()))
  {
    ConvenienceAtOneStore(reqs, offers, table, selected, full);
    FullStoreGrand(reqs, offers, stores, table, selected[0]);
  }

  /** Buying everything at one store that stocks everything. */
  lemma FullStoreGrand(
    reqs: seq<Requirement>, offers: OfferBook, stores: StoreCode -> StoreTerms, table: StoreTable, s: StoreCode)
    requires DistinctKeys(reqs) && FromStores(offers, stores)
    requires IsStoreTable(table, Matched(reqs, offers), offers)
    requires Matched(reqs, offers) != [] && StocksEverything(reqs, offers, s)
    ensures RowAt(table, s) == Row(Matched(reqs, offers), offers, s) && RowAt(table, s).Valid()
    ensures TotalCost(RowAt(table, s).Values()) == StoreTotal(reqs, offers, s)
    ensures StoresOf(RowAt(table, s).Values()) == [s]
    ensures GrandOf(RowAt(table, s).Values()) ==
            StoreTotal(reqs, offers, s) + DeliveryFee(stores(s), StoreTotal(reqs, offers, s))
  {
    var matched := Matched(reqs, offers);
    MatchedFacts(reqs, offers);
    FullRow(reqs, offers, table, s);
    RowAllAt(matched, offers, table, stores, s);
    PickAllTotal(matched, CheapestPick(offers, Some({s})));
    GrandAtOneStore(RowAt(table, s).Values(), s, stores(s));
  }

  // ---- DELIVERY ----

  lemma SameTable(reqs: seq<Requirement>, offers: OfferBook, t: StoreTable, u: StoreTable)
    requires IsStoreTable(t, reqs, offers) && IsStoreTable(u, reqs, offers)
    ensures t == u
  {
    forall s | s in t.entries
      ensures s in u.entries && t.entries[s] == u.entries[s]
    {
      assert RowAt(t, s) == RowAt(u, s);
    }
    assert t.entries == u.entries;
  }

  /** When some store stocks everything, DELIVERY's grand total is at most CONVENIENCE's. */
  lemma DeliveryBeatsConvenience(
    reqs: seq<Requirement>, offers: OfferBook, stores: StoreCode -> StoreTerms, baseline: Option<real>,
    b1: Basket, res1: OptimizationResult, b2: Basket, res2: OptimizationResult, full: StoreCode)
    requires DistinctKeys(reqs) && FromStores(offers, stores)
    requires ResultOf(CONVENIENCE, reqs, offers, b1, baseline, res1)
    requires ResultOf(DELIVERY, reqs, offers, b2, baseline, res2)
    requires Matched(reqs, offers) != [] && StocksEverything(reqs, offers, full)
    ensures res2.grandTotalCents <= res1.grandTotalCents
    ensures res2.unmatchedIngredients == res1.unmatchedIngredients
  {
    ResultBalances(CONVENIENCE, reqs, offers, b1, baseline, res1);
    ResultBalances(DELIVERY, reqs, offers, b2, baseline, res2);
    var t1, selected := ConvenienceRun(reqs, offers, b1, baseline, res1);
    var table, primary := DeliveryRun(reqs, offers, b2, baseline, res2);
    SingleStoreLines(reqs, offers, stores, t1, selected, b1, full);
    SameRow(reqs, offers, t1, table, primary, b2, selected[0]);
    DeliveryAtMostFullStore(reqs, offers, table, primary, b2, selected[0]);
    SameNames(reqs, offers, table, primary, b2, b1, full);
  }

  lemma SameRow(
    reqs: seq<Requirement>, offers: OfferBook, t: StoreTable, table: StoreTable, primary: Option<StoreCode>,
    b: Basket, s: StoreCode)
    requires IsStoreTable(t, Matched(reqs, offers), offers) && IsDelivery(reqs, offers, table, primary, b)
    ensures RowAt(t, s) == RowAt(table, s)
  {
  }

  /** DELIVERY costs at most what any one store that stocks everything would. */
  lemma DeliveryAtMostFullStore(
    reqs: seq<Requirement>, offers: OfferBook, table: StoreTable, primary: Option<StoreCode>, b: Basket,
    s: StoreCode)
    requires DistinctKeys(reqs) && IsDelivery(reqs, offers, table, primary, b)
    requires Matched(reqs, offers) != [] && StocksEverything(reqs, offers, s)
    ensures b.Valid() && GrandOf(b.Values()) <= GrandOf(RowAt(table, s).Values())
  {
    var matched := Matched(reqs, offers);
    FullPrimary(reqs, offers, table, s);
    SomePrimary(matched, table, s, primary);
    PrimaryIsLeast(matched, table, primary.value, s);
    ComboIsValid(matched, table, primary.value, BestComplement(matched, table, primary.value));
  }

  lemma SameNames(
    reqs: seq<Requirement>, offers: OfferBook, table: StoreTable, primary: Option<StoreCode>, b: Basket,
    b1: Basket, full: StoreCode)
    requires DistinctKeys(reqs) && IsDelivery(reqs, offers, table, primary, b)
    requires Outcome(CONVENIENCE, reqs, offers, b1)
    requires StocksEverything(reqs, offers, full)
    ensures UnmatchedNames(reqs, b) == UnmatchedNames(reqs, b1)
  {
    DeliveryBuys(reqs, offers, b);
    forall i | 0 <= i < |reqs|
      ensures reqs[i].key in b.entries <==> reqs[i].key in b1.entries
    {
      CoversExactlyOffered(CONVENIENCE, reqs, offers, b1, i);
      if OffersFor(offers, reqs[i].key) != [] {
        var m := MatchedIndex(reqs, offers, i);
        DeliveryCoversAll(reqs, offers, table, primary, b, full, m);
      } else {
        OfferlessNotBought(reqs, offers, b, reqs[i].key);
      }
    }
    NamesAgree(reqs, b, b1);
  }

  lemma OfferlessNotBought(reqs: seq<Requirement>, offers: OfferBook, b: Basket, k: Key)
    requires Buys(reqs, offers, b) && OffersFor(offers, k) == []
    ensures k !in b.entries
  {
    assert k in b.entries ==> BoughtForKey(reqs, offers, b, k);
  }

  lemma {:induction false} NamesAgree(reqs: seq<Requirement>, x: Basket, y: Basket)
    requires forall i :: 0 <= i < |reqs| ==> (reqs[i].key in x.entries <==> reqs[i].key in y.entries)
    ensures UnmatchedNames(reqs, x) == UnmatchedNames(reqs, y)
  {
    if reqs != [] {
      NamesAgree(reqs[..|reqs| - 1], x, y);
    }
  }

  // ---- DELIVERY against the baseline ----

  lemma {:induction false} MeanAtLeast(totals: seq<int>, x: int)
    requires totals != [] && forall i :: 0 <= i < |totals| ==> x <= totals[i]
    ensures x as real <= Mean(totals).value
  {
    SumAtLeast(totals, x);
    var n, sum := |totals| as real, SumInts(totals) as real;
    assert x as real * n <= sum;
    assert sum / n * n == sum;
    assert (sum / n - x as real) * n >= 0.0;
  }

  lemma {:induction false} SumAtLeast(totals: seq<int>, x: int)
    requires forall i :: 0 <= i < |totals| ==> x <= totals[i]
    ensures x * |totals| <= SumInts(totals)
  {
    if totals != [] {
      SumAtLeast(totals[..|totals| - 1], x);
      assert x * |totals| == x * (|totals| - 1) + x;
    }
  }

  lemma {:induction false} EachTotalBelongs(table: StoreTable, order: seq<StoreCode>, bar: nat, i: nat)
    returns (q: StoreCode)
    requires ValidTable(table) && i < |SingleTotals(table, order, bar)|
    ensures q in order && |RowAt(table, q).order| >= bar
    ensures var subtotal := TotalCost(RowAt(table, q).Values());
      SingleTotals(table, order, bar)[i] == subtotal + DeliveryForSubtotal(subtotal, RowAt(table, q))
  {
    var init := order[..|order| - 1];
    if i < |SingleTotals(table, init, bar)| {
      q := EachTotalBelongs(table, init, bar, i);
    } else {
      q := order[|order| - 1];
    }
  }

  /** Every store that reaches the bar stocks everything. */
  ghost predicate BarMeansEverything(reqs: seq<Requirement>, offers: OfferBook, table: StoreTable) {
    forall q :: Qualifies(Matched(reqs, offers), table, q) ==> StocksEverything(reqs, offers, q)
  }

  /** When every qualifying store stocks everything, DELIVERY costs no more than any averaged total. */
  lemma DeliveryAtMostEachTotal(
    reqs: seq<Requirement>, offers: OfferBook, table: StoreTable, primary: Option<StoreCode>, b: Basket,
    stores: StoreCode -> StoreTerms, i: nat)
    requires DistinctKeys(reqs) && IsDelivery(reqs, offers, table, primary, b) && FromStores(offers, stores)
    requires Matched(reqs, offers) != [] && BarMeansEverything(reqs, offers, table)
    requires i < |SingleTotals(table, table.order, CoverageBar(|Matched(reqs, offers)|))|
    ensures b.Valid()
    ensures GrandOf(b.Values()) <= SingleTotals(table, table.order, CoverageBar(|Matched(reqs, offers)|))[i]
  {
    var matched := Matched(reqs, offers);
    var q := EachTotalBelongs(table, table.order, CoverageBar(|matched|), i);
    assert Qualifies(matched, table, q);
    DeliveryAtMostFullStore(reqs, offers, table, primary, b, q);
    RowAllAt(matched, offers, table, stores, q);
    FullStoreGrand(reqs, offers, stores, table, q);
    FullRow(reqs, offers, table, q);
  }

  lemma BaselineMean(
    reqs: seq<Requirement>, offers: OfferBook, table: StoreTable, primary: Option<StoreCode>, b: Basket,
    baseline: real)
    requires IsDelivery(reqs, offers, table, primary, b)
    requires exists t :: IsBaseline(reqs, offers, t, Some(baseline))
    ensures Matched(reqs, offers) != []
    ensures var totals := SingleTotals(table, table.order, CoverageBar(|Matched(reqs, offers)|));
      totals != [] && baseline == Mean(totals).value
  {
    var t :| IsBaseline(reqs, offers, t, Some(baseline));
    SameTable(Matched(reqs, offers), offers, t, table);
  }

  lemma DeliveryAtMostTotals(
    reqs: seq<Requirement>, offers: OfferBook, stores: StoreCode -> StoreTerms,
    table: StoreTable, primary: Option<StoreCode>, b: Basket)
    requires DistinctKeys(reqs) && FromStores(offers, stores)
    requires IsDelivery(reqs, offers, table, primary, b) && BarMeansEverything(reqs, offers, table)
    requires Matched(reqs, offers) != [] && b.Valid()
    ensures forall i :: 0 <= i < |SingleTotals(table, table.order, CoverageBar(|Matched(reqs, offers)|))| ==>
              GrandOf(b.Values()) <= SingleTotals(table, table.order, CoverageBar(|Matched(reqs, offers)|))[i]
  {
    forall i | 0 <= i < |SingleTotals(table, table.order, CoverageBar(|Matched(reqs, offers)|))| {
      DeliveryAtMostEachTotal(reqs, offers, table, primary, b, stores, i);
    }
  }

  lemma DeliveryAtMostBaseline(
    reqs: seq<Requirement>, offers: OfferBook, stores: StoreCode -> StoreTerms, baseline: real,
    table: StoreTable, primary: Option<StoreCode>, b: Basket)
    requires DistinctKeys(reqs) && FromStores(offers, stores)
    requires IsDelivery(reqs, offers, table, primary, b) && exists t :: IsBaseline(reqs, offers, t, Some(baseline))
    requires BarMeansEverything(reqs, offers, table) && b.Valid()
    ensures GrandOf(b.Values()) as real <= baseline
  {
    BaselineMean(reqs, offers, table, primary, b, baseline);
    DeliveryAtMostTotals(reqs, offers, stores, table, primary, b);
    MeanAtLeast(SingleTotals(table, table.order, CoverageBar(|Matched(reqs, offers)|)), GrandOf(b.Values()));
  }

  /**
   * When every store that reaches the bar stocks everything, DELIVERY costs at most
   * the baseline, so its savings are the plain rounded difference, never clamped.
   */
  lemma DeliverySavingsNotClamped(
    reqs: seq<Requirement>, offers: OfferBook, stores: StoreCode -> StoreTerms, mean: real,
    table: StoreTable, primary: Option<StoreCode>, b: Basket, res: OptimizationResult)
    requires DistinctKeys(reqs) && FromStores(offers, stores)
    requires ResultOf(DELIVERY, reqs, offers, b, Some(mean), res) && IsDelivery(reqs, offers, table, primary, b)
    requires BarMeansEverything(reqs, offers, table)
    ensures res.grandTotalCents as real <= mean
    ensures res.savingsCents == Round(mean - res.grandTotalCents as real)
  {
    ResultBalances(DELIVERY, reqs, offers, b, Some(mean), res);
    DeliveryAtMostBaseline(reqs, offers, stores, mean, table, primary, b);
    PrintedSavings(DELIVERY, reqs, b, mean, res);
  }

  lemma PrintedSavings(
    s: Strategy, reqs: seq<Requirement>, b: Basket, mean: real, res: OptimizationResult)
    requires b.Valid() && IsResult(res, s, reqs, b, Some(mean))
    requires res.grandTotalCents as real <= mean
    ensures res.savingsCents == Round(mean - res.grandTotalCents as real)
  {
  }
}
