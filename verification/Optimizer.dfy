/** The optimizer as a whole: the four results for one shopping list, and how they compare. */
module Optimizer {
  import opened Sequences
  import opened Options
  import opened OrderedMaps
  import opened BasketTypes
  import opened Picking
  import opened StoreTables
  import opened GreedyCover
  import opened Convenience
  import opened Delivery
  import opened Results

  // ---- the baseline ----

  /** Goods plus delivery of every store in `order` that reaches the bar. */
  function SingleTotals(table: StoreTable, order: seq<StoreCode>, bar: nat): seq<int>
    requires ValidTable(table)
  {
    if order == [] then []
    else
      var before, row := SingleTotals(table, order[..|order| - 1], bar), RowAt(table, order[|order| - 1]);
      if |row.order| < bar then before
      else
        var subtotal := TotalCost(row.Values());
        before + [subtotal + DeliveryForSubtotal(subtotal, row)]
  }

  function SumInts(s: seq<int>): int {
    if s == [] then 0 else SumInts(s[..|s| - 1]) + s[|s| - 1]
  }

  function Mean(totals: seq<int>): Option<real> {
    if totals == [] then None else Some(SumInts(totals) as real / |totals| as real)
  }

  ghost predicate IsBaseline(reqs: seq<Requirement>, offers: OfferBook, table: StoreTable, baseline: Option<real>) {
    var matched := Matched(reqs, offers);
    && IsStoreTable(table, matched, offers)
    && ValidTable(table)
    && baseline == Mean(SingleTotals(table, table.order, CoverageBar(|matched|)))
  }

  method ComputeBaseline(reqs: seq<Requirement>, offers: OfferBook)
    returns (baseline: Option<real>, ghost table: StoreTable)
    requires DistinctKeys(reqs)
    ensures IsBaseline(reqs, offers, table, baseline)
  {
    var matched := Matched(reqs, offers);
    MatchedFacts(reqs, offers);
    if |matched| == 0 {
      return None, Empty();
    }
    var storeOffers := CheapestPerStore(matched, offers);
    TableIsValid(storeOffers, matched, offers);
    table := storeOffers;
    var totals := SingleStoreTotals(storeOffers, CoverageBar(|matched|));
    baseline := Mean(totals);
  }

  lemma SingleTotalsStep(table: StoreTable, order: seq<StoreCode>, bar: nat, n: nat)
    requires ValidTable(table) && n < |order|
    ensures var before, row := SingleTotals(table, order[..n], bar), RowAt(table, order[n]);
      SingleTotals(table, order[..n + 1], bar) ==
      if |row.order| < bar then before
      else before + [TotalCost(row.Values()) + DeliveryForSubtotal(TotalCost(row.Values()), row)]
  {
    PrefixStep(order, n);
  }

  method SingleStoreTotals(table: StoreTable, minCoverage: nat) returns (totals: seq<int>)
    requires ValidTable(table)
    ensures totals == SingleTotals(table, table.order, minCoverage)
  {
    totals := [];
    for i := 0 to |table.order|
      invariant totals == SingleTotals(table, table.order[..i], minCoverage)
    {
      SingleTotalsStep(table, table.order, minCoverage, i);
      var perStore := RowAt(table, table.order[i]);
      if |perStore.order| >= minCoverage {
        var subtotal := Subtotal(perStore);
        totals := totals + [subtotal + DeliveryForSubtotal(subtotal, perStore)];
      }
    }
    FullPrefix(table.order);
  }

  method Subtotal(row: Basket) returns (subtotal: int)
    requires row.Valid()
    ensures subtotal == TotalCost(row.Values())
  {
    subtotal := 0;
    var values := row.Values();
    for i := 0 to |values|
      invariant subtotal == TotalCost(values[..i])
    {
      PrefixStep(values, i);
      subtotal := subtotal + values[i].costCents;
    }
    FullPrefix(values);
  }

  // ---- one strategy's outcome ----

  /** `b` is the basket strategy `s` assigns. */
  ghost predicate Outcome(s: Strategy, reqs: seq<Requirement>, offers: OfferBook, b: Basket) {
    match s
    case CHEAPEST => b == PickAll(reqs, CheapestPick(offers, None))
    case QUALITY => b == PickAll(reqs, QualityPick(offers))
    case CONVENIENCE =>
      exists table, selected ::
        Selection(reqs, offers, table, selected) && b == ConvenienceBasket(reqs, offers, KeySet(selected))
    case DELIVERY => exists table, primary :: IsDelivery(reqs, offers, table, primary, b)
  }

  method Assign(s: Strategy, reqs: seq<Requirement>, offers: OfferBook) returns (b: Basket)
    requires DistinctKeys(reqs)
    ensures Outcome(s, reqs, offers, b)
  {
    match s
    case CHEAPEST =>
      b := AssignCheapest(reqs, offers, None);
    case CONVENIENCE =>
      ghost var table, selected;
      b, table, selected := AssignConvenience(reqs, offers);
    case DELIVERY =>
      ghost var table, primary;
      b, table, primary := AssignDelivery(reqs, offers);
    case QUALITY =>
      b := AssignQuality(reqs, offers);
  }

  /** `k` was bought, for its requirement, at one of the offers for it. */
  ghost predicate BoughtForKey(reqs: seq<Requirement>, offers: OfferBook, b: Basket, k: Key) {
    k in b.entries
    && exists i, j :: 0 <= i < |reqs| && reqs[i].key == k && BoughtAt(reqs[i], OffersFor(offers, k), j, b.entries[k])
  }

  ghost predicate Buys(reqs: seq<Requirement>, offers: OfferBook, b: Basket) {
    b.Valid() && forall k <- b.entries :: BoughtForKey(reqs, offers, b, k)
  }

  lemma BuysIsBasketOf(reqs: seq<Requirement>, offers: OfferBook, b: Basket)
    requires DistinctKeys(reqs) && Buys(reqs, offers, b)
    ensures BasketOf(reqs, b)
  {
    forall k | k in b.entries
      ensures HasKey(reqs, k) && b.entries[k].costCents == b.entries[k].packs * b.entries[k].offer.priceCents
    {
      assert BoughtForKey(reqs, offers, b, k);
    }
  }

  /** The pick only ever returns assignments of the requirement's own offers. */
  ghost predicate PicksOffers(reqs: seq<Requirement>, offers: OfferBook, pick: Pick) {
    forall i :: 0 <= i < |reqs| && pick(reqs[i]).Some? ==>
      exists j :: BoughtAt(reqs[i], OffersFor(offers, reqs[i].key), j, pick(reqs[i]).value)
  }

  lemma PickAllBuys(reqs: seq<Requirement>, offers: OfferBook, pick: Pick)
    requires DistinctKeys(reqs) && PicksOffers(reqs, offers, pick)
    ensures Buys(reqs, offers, PickAll(reqs, pick))
  {
    PickAllFacts(reqs, pick);
    var b := PickAll(reqs, pick);
    forall k | k in b.entries
      ensures BoughtForKey(reqs, offers, b, k)
    {
      var i :| 0 <= i < |reqs| && reqs[i].key == k;
      var j :| BoughtAt(reqs[i], OffersFor(offers, k), j, pick(reqs[i]).value);
    }
  }

  lemma CheapestPicksOffers(reqs: seq<Requirement>, offers: OfferBook, allowed: Option<set<StoreCode>>)
    ensures PicksOffers(reqs, offers, CheapestPick(offers, allowed))
  {
    forall i | 0 <= i < |reqs| && CheapestPick(offers, allowed)(reqs[i]).Some?
      ensures exists j ::
          BoughtAt(reqs[i], OffersFor(offers, reqs[i].key), j, CheapestPick(offers, allowed)(reqs[i]).value)
    {
      CheapestOfIsFirstLeast(reqs[i], OffersFor(offers, reqs[i].key), allowed);
    }
  }

  lemma QualityPicksOffers(reqs: seq<Requirement>, offers: OfferBook)
    ensures PicksOffers(reqs, offers, QualityPick(offers))
  {
    forall i | 0 <= i < |reqs| && QualityPick(offers)(reqs[i]).Some?
      ensures exists j :: BoughtAt(reqs[i], OffersFor(offers, reqs[i].key), j, QualityPick(offers)(reqs[i]).value)
    {
      QualityOfIsFirstBest(reqs[i], OffersFor(offers, reqs[i].key));
    }
  }

  lemma MatchedBuys(reqs: seq<Requirement>, offers: OfferBook, b: Basket)
    requires Buys(Matched(reqs, offers), offers, b)
    ensures Buys(reqs, offers, b)
  {
    MatchedFacts(reqs, offers);
    var matched := Matched(reqs, offers);
    forall k | k in b.entries
      ensures BoughtForKey(reqs, offers, b, k)
    {
      assert BoughtForKey(matched, offers, b, k);
      var m, j :| 0 <= m < |matched| && matched[m].key == k
        && BoughtAt(matched[m], OffersFor(offers, k), j, b.entries[k]);
      var i :| 0 <= i < |reqs| && reqs[i] == matched[m];
      assert BoughtAt(reqs[i], OffersFor(offers, k), j, b.entries[k]);
    }
  }

  lemma ComboBuys(
    matched: seq<Requirement>, offers: OfferBook, table: StoreTable, p: StoreCode, c: Option<StoreCode>)
    requires DistinctKeys(matched) && IsStoreTable(table, matched, offers) && ValidTable(table)
    ensures Buys(matched, offers, Combo(matched, table, p, c))
  {
    RowBuys(matched, offers, table, p);
    ComboIsValid(matched, table, p, c);
    if c.Some? {
      RowBuys(matched, offers, table, c.value);
      JoinExtra(matched, table, p, c.value);
      ExtraIsValid(matched, table, p, c.value);
      var b := Combo(matched, table, p, c);
      forall k | k in b.entries
        ensures BoughtForKey(matched, offers, b, k)
      {
        var row := RowAt(table, if k in RowAt(table, p).entries then p else c.value);
        assert BoughtForKey(matched, offers, row, k);
      }
    }
  }

  lemma RowBuys(matched: seq<Requirement>, offers: OfferBook, table: StoreTable, s: StoreCode)
    requires DistinctKeys(matched) && IsStoreTable(table, matched, offers)
    ensures Buys(matched, offers, RowAt(table, s))
  {
    CheapestPicksOffers(matched, offers, Some({s}));
    PickAllBuys(matched, offers, CheapestPick(offers, Some({s})));
    assert RowAt(table, s) == Row(matched, offers, s);
  }

  /** Whatever the strategy, everything in the basket is bought at an offer for it. */
  lemma OutcomeBuys(s: Strategy, reqs: seq<Requirement>, offers: OfferBook, b: Basket)
    requires DistinctKeys(reqs) && Outcome(s, reqs, offers, b)
    ensures Buys(reqs, offers, b)
  {
    MatchedFacts(reqs, offers);
    var matched := Matched(reqs, offers);
    match s
    case CHEAPEST =>
      CheapestPicksOffers(reqs, offers, None);
      PickAllBuys(reqs, offers, CheapestPick(offers, None));
    case QUALITY =>
      QualityPicksOffers(reqs, offers);
      PickAllBuys(reqs, offers, QualityPick(offers));
    case CONVENIENCE =>
      var table, selected :|
        Selection(reqs, offers, table, selected) && b == ConvenienceBasket(reqs, offers, KeySet(selected));
      CheapestPicksOffers(matched, offers, Some(KeySet(selected)));
      PickAllBuys(matched, offers, CheapestPick(offers, Some(KeySet(selected))));
      MatchedBuys(reqs, offers, b);
    case DELIVERY =>
      DeliveryBuys(reqs, offers, b);
  }

  lemma DeliveryBuys(reqs: seq<Requirement>, offers: OfferBook, b: Basket)
    requires DistinctKeys(reqs) && Outcome(DELIVERY, reqs, offers, b)
    ensures Buys(reqs, offers, b)
  {
    var matched := Matched(reqs, offers);
    var table, primary :| IsDelivery(reqs, offers, table, primary, b);
    match primary
    case Some(p) =>
      ComboBuys(matched, offers, table, p, BestComplement(matched, table, p));
      MatchedBuys(reqs, offers, b);
    case None =>
      CheapestPicksOffers(matched, offers, None);
      PickAllBuys(matched, offers, CheapestPick(offers, None));
      MatchedBuys(reqs, offers, b);
  }

  // ---- whole results ----

  /** `res` is what the optimizer returns for strategy `s`. */
  ghost predicate ResultOf(
    s: Strategy, reqs: seq<Requirement>, offers: OfferBook, b: Basket, baseline: Option<real>,
    res: OptimizationResult)
  {
    && Outcome(s, reqs, offers, b)
    && (exists table :: IsBaseline(reqs, offers, table, baseline))
    && b.Valid()
    && IsResult(res, s, reqs, b, baseline)
  }

  method Optimize(reqs: seq<Requirement>, offers: OfferBook, s: Strategy)
    returns (res: OptimizationResult, ghost b: Basket, ghost baseline: Option<real>)
    requires DistinctKeys(reqs)
    ensures ResultOf(s, reqs, offers, b, baseline, res)
  {
    var mean, _ := ComputeBaseline(reqs, offers);
    res, b := ResultFor(reqs, offers, s, mean);
    baseline := mean;
  }

  method ResultFor(reqs: seq<Requirement>, offers: OfferBook, s: Strategy, baseline: Option<real>)
    returns (res: OptimizationResult, ghost b: Basket)
    requires DistinctKeys(reqs)
    ensures Outcome(s, reqs, offers, b) && b.Valid() && IsResult(res, s, reqs, b, baseline)
  {
    var assignments := Assign(s, reqs, offers);
    OutcomeBuys(s, reqs, offers, assignments);
    res := BuildResult(s, reqs, assignments, baseline);
    b := assignments;
  }

  const STRATEGIES: seq<Strategy> := [CHEAPEST, CONVENIENCE, DELIVERY, QUALITY]

  ghost function ResultRelation(reqs: seq<Requirement>, offers: OfferBook, baseline: Option<real>)
    : (Strategy, Basket, OptimizationResult) -> bool
  {
    (s, b, res) => ResultOf(s, reqs, offers, b, baseline, res)
  }

  method OptimizeAll(reqs: seq<Requirement>, offers: OfferBook)
    returns (results: seq<OptimizationResult>, ghost baskets: seq<Basket>, ghost baseline: Option<real>)
    requires DistinctKeys(reqs)
    ensures Each(ResultRelation(reqs, offers, baseline), [CHEAPEST, CONVENIENCE, DELIVERY, QUALITY], baskets, results)
  {
    var mean, table := ComputeBaseline(reqs, offers);
    results, baskets, baseline := [], [], mean;
    for i := 0 to |STRATEGIES|
      invariant Each(ResultRelation(reqs, offers, mean), STRATEGIES[..i], baskets, results)
    {
      var res, b := ResultFor(reqs, offers, STRATEGIES[i], mean);
      OneMoreEach(ResultRelation(reqs, offers, mean), STRATEGIES[..i], baskets, results, STRATEGIES[i], b, res);
      PrefixGrow(STRATEGIES, i);
      results, baskets := results + [res], baskets + [b];
    }
    FullPrefix(STRATEGIES);
  }
}
