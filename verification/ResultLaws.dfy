/**
 * What the printed figures are, told from the stores' terms and the offers alone: fees,
 * item lines, savings, the baseline, and the scores that QUALITY and DELIVERY choose by.
 */
module ResultLaws {
  import opened Options
  import opened BasketTypes
  import opened Picking
  import opened Grouping
  import opened Results
  import opened Optimizer
  import opened StoreCounts

  ghost function Total<T>(s: seq<T>, f: T -> int): int {
    if s == [] then 0 else Total(s[..|s| - 1], f) + f(s[|s| - 1])
  }

  // ---- store lines ----

  ghost predicate OnTerms(lines: seq<Assignment>, stores: StoreCode -> StoreTerms) {
    forall i :: 0 <= i < |lines| ==> TermsOf(lines[i].offer) == stores(lines[i].offer.storeCode)
  }

  lemma {:induction false} TermsAreTheStores(lines: seq<Assignment>, stores: StoreCode -> StoreTerms, s: StoreCode)
    requires OnTerms(lines, stores) && FirstTermsAt(lines, s).Some?
    ensures FirstTermsAt(lines, s).value == stores(s)
  {
    if FirstTermsAt(lines[..|lines| - 1], s).Some? {
      TermsAreTheStores(lines[..|lines| - 1], stores, s);
    }
  }

  lemma BoughtOnTerms(reqs: seq<Requirement>, offers: OfferBook, stores: StoreCode -> StoreTerms, b: Basket, k: Key)
    requires FromStores(offers, stores) && BoughtForKey(reqs, offers, b, k)
    ensures TermsOf(b.entries[k].offer) == stores(b.entries[k].offer.storeCode)
  {
    var i, j :| 0 <= i < |reqs| && reqs[i].key == k && BoughtAt(reqs[i], OffersFor(offers, k), j, b.entries[k]);
    assert TermsOf(offers[k][j]) == stores(offers[k][j].storeCode);
  }

  lemma BasketOnTerms(reqs: seq<Requirement>, offers: OfferBook, stores: StoreCode -> StoreTerms, b: Basket)
    requires FromStores(offers, stores) && Buys(reqs, offers, b)
    ensures OnTerms(b.Values(), stores)
  {
    forall i | 0 <= i < |b.order|
      ensures TermsOf(b.Values()[i].offer) == stores(b.Values()[i].offer.storeCode)
    {
      BoughtOnTerms(reqs, offers, stores, b, b.order[i]);
    }
  }

  ghost function CostHere(s: StoreCode): Assignment -> int {
    (a: Assignment) => if a.offer.storeCode == s then a.costCents else 0
  }

  ghost function OneHere(s: StoreCode): Assignment -> int {
    (a: Assignment) => if a.offer.storeCode == s then 1 else 0
  }

  lemma {:induction false} TotalsAtStore(lines: seq<Assignment>, s: StoreCode)
    ensures SubtotalAt(lines, s) == Total(lines, CostHere(s))
    ensures CountAt(lines, s) == Total(lines, OneHere(s))
  {
    if lines != [] {
      TotalsAtStore(lines[..|lines| - 1], s);
    }
  }

  /** A printed store line: the store's own goods, and its own fee, waived from its own minimum on. */
  ghost predicate TrueStoreLine(line: StoreLine, lines: seq<Assignment>, terms: StoreTerms) {
    && line.storeName == terms.storeName
    && line.subtotalCents == Total(lines, CostHere(line.storeCode))
    && line.itemCount == Total(lines, OneHere(line.storeCode))
    && line.deliveryCents == match terms.freeDeliveryMinCents
         case Some(minimum) => if line.subtotalCents >= minimum then 0 else terms.deliveryFeeCents
         case None => terms.deliveryFeeCents
  }

  lemma StoreLineIsTrue(line: StoreLine, lines: seq<Assignment>, s: StoreCode, stores: StoreCode -> StoreTerms)
    requires OnTerms(lines, stores) && IsStoreLine(line, lines, s)
    ensures line.storeCode == s && TrueStoreLine(line, lines, stores(s))
  {
    TermsAreTheStores(lines, stores, s);
    TotalsAtStore(lines, s);
  }

  /** Whatever the strategy: one line for each store bought at, and each line says what that store charges. */
  lemma StoreLinesAreTrue(
    s: Strategy, reqs: seq<Requirement>, offers: OfferBook, stores: StoreCode -> StoreTerms, b: Basket,
    baseline: Option<real>, res: OptimizationResult)
    requires DistinctKeys(reqs) && FromStores(offers, stores) && ResultOf(s, reqs, offers, b, baseline, res)
    ensures forall i :: 0 <= i < |res.storeBreakdown| ==>
              TrueStoreLine(res.storeBreakdown[i], b.Values(), stores(res.storeBreakdown[i].storeCode))
    ensures forall i, j :: 0 <= i < j < |res.storeBreakdown| ==>
              res.storeBreakdown[i].storeCode != res.storeBreakdown[j].storeCode
    ensures forall k <- b.entries :: exists i ::
              0 <= i < |res.storeBreakdown| && res.storeBreakdown[i].storeCode == b.entries[k].offer.storeCode
  {
    OutcomeBuys(s, reqs, offers, b);
    BasketOnTerms(reqs, offers, stores, b);
    var breakdown, lines := res.storeBreakdown, b.Values();
    assert IsBreakdown(breakdown, lines);
    StoresOfFacts(lines);
    forall i | 0 <= i < |breakdown|
      ensures breakdown[i].storeCode == StoresOf(lines)[i]
      ensures TrueStoreLine(breakdown[i], lines, stores(breakdown[i].storeCode))
    {
      StoreLineIsTrue(breakdown[i], lines, StoresOf(lines)[i], stores);
    }
    forall k | k in b.entries
      ensures exists i :: 0 <= i < |breakdown| && breakdown[i].storeCode == b.entries[k].offer.storeCode
    {
      UsesStore(b, k);
      var i :| 0 <= i < |StoresOf(lines)| && StoresOf(lines)[i] == b.entries[k].offer.storeCode;
      assert breakdown[i].storeCode == b.entries[k].offer.storeCode;
    }
  }

  ghost function SubtotalOf(): StoreLine -> int {
    (line: StoreLine) => line.subtotalCents
  }

  ghost function DeliveryOf(): StoreLine -> int {
    (line: StoreLine) => line.deliveryCents
  }

  lemma {:induction false} PrintedSums(lines: seq<StoreLine>)
    ensures SumStoreSubtotals(lines) == Total(lines, SubtotalOf())
    ensures SumStoreDeliveries(lines) == Total(lines, DeliveryOf())
  {
    if lines != [] {
      PrintedSums(lines[..|lines| - 1]);
    }
  }

  /**
   * The totals add up the store lines, and the savings are the mean less the grand total to
   * the nearest cent, halves up, never below zero, and zero without a mean.
   */
  lemma TotalsAndSavings(
    s: Strategy, reqs: seq<Requirement>, offers: OfferBook, b: Basket, baseline: Option<real>,
    res: OptimizationResult)
    requires ResultOf(s, reqs, offers, b, baseline, res)
    ensures res.strategy == s && res.storeCount == |res.storeBreakdown|
    ensures res.totalCents == Total(res.storeBreakdown, SubtotalOf())
    ensures res.deliveryCents == Total(res.storeBreakdown, DeliveryOf())
    ensures res.grandTotalCents == res.totalCents + res.deliveryCents
    ensures match baseline
      case None => res.savingsCents == 0
      case Some(mean) =>
        var saved := mean - res.grandTotalCents as real;
        if saved < 0.5 then res.savingsCents == 0
        else saved - 0.5 < res.savingsCents as real <= saved + 0.5
  {
    PrintedSums(res.storeBreakdown);
  }

  // ---- item lines ----

  /** `quantity` packs, the fewest that hold what is needed, at least one; one if the grams are not known. */
  ghost predicate FewestPacks(r: Requirement, o: Offer, quantity: int) {
    match (r.requiredQtyG, o.packQtyG)
    case (Some(need), Some(pack)) =>
      if need > 0.0 && pack > 0.0 then
        quantity >= 1 && quantity as real * pack >= need && (quantity - 1) as real * pack < need
      else quantity == 1
    case _ => quantity == 1
  }

  lemma PacksAreFewest(r: Requirement, o: Offer)
    ensures FewestPacks(r, o, PacksNeeded(r, o))
  {
    if KnownGrams(r, o) {
      PacksNeededIsLeast(r, o, PacksNeeded(r, o));
      PacksNeededIsLeast(r, o, PacksNeeded(r, o) - 1);
    }
  }

  /** The line of a requirement bought at offer `o`. */
  ghost predicate TrueItem(item: ItemLine, r: Requirement, o: Offer) {
    && item.productId == Some(o.productId) && item.unitPriceCents == o.priceCents
    && FewestPacks(r, o, item.quantity) && item.totalCents == item.quantity * o.priceCents
  }

  /** An item line names its requirement, and is one of its offers in the fewest packs, or all zeros. */
  lemma ItemIsTrue(
    s: Strategy, reqs: seq<Requirement>, offers: OfferBook, b: Basket, baseline: Option<real>,
    res: OptimizationResult, i: nat)
    requires DistinctKeys(reqs) && ResultOf(s, reqs, offers, b, baseline, res) && i < |reqs|
    ensures |res.items| == |reqs|
    ensures res.items[i].ingredientName == reqs[i].name && res.items[i].requiredQtyG == reqs[i].requiredQtyG
    ensures res.items[i].unmatched ==>
              res.items[i] == ItemLine(reqs[i].name, reqs[i].requiredQtyG, 0, 0, 0, true, None)
    ensures !res.items[i].unmatched ==>
              exists j :: 0 <= j < |OffersFor(offers, reqs[i].key)|
                && TrueItem(res.items[i], reqs[i], OffersFor(offers, reqs[i].key)[j])
  {
    var item, r := res.items[i], reqs[i];
    assert IsItemOf(item, r, b);
    OutcomeBuys(s, reqs, offers, b);
    if r.key in b.entries {
      assert BoughtForKey(reqs, offers, b, r.key);
      var m, j :| 0 <= m < |reqs| && reqs[m].key == r.key
        && BoughtAt(reqs[m], OffersFor(offers, r.key), j, b.entries[r.key]);
      assert m == i;
      PacksAreFewest(r, OffersFor(offers, r.key)[j]);
      assert TrueItem(item, r, OffersFor(offers, r.key)[j]);
    }
  }

  /** The names on the unmatched lines, from the top. */
  ghost function NamesUnmatched(items: seq<ItemLine>): seq<string> {
    if items == [] then []
    else
      var before, item := NamesUnmatched(items[..|items| - 1]), items[|items| - 1];
      if item.unmatched then before + [item.ingredientName] else before
  }

  lemma {:induction false} NamesAreUnmatched(items: seq<ItemLine>, reqs: seq<Requirement>, b: Basket)
    requires |items| == |reqs| && forall i :: 0 <= i < |reqs| ==> IsItemOf(items[i], reqs[i], b)
    ensures UnmatchedNames(reqs, b) == NamesUnmatched(items)
  {
    if items != [] {
      NamesAreUnmatched(items[..|items| - 1], reqs[..|reqs| - 1], b);
      assert IsItemOf(items[|items| - 1], reqs[|reqs| - 1], b);
    }
  }

  /** The list of unmatched ingredients repeats the unmatched lines' names, in their order. */
  lemma UnmatchedAreTheLines(
    s: Strategy, reqs: seq<Requirement>, offers: OfferBook, b: Basket, baseline: Option<real>,
    res: OptimizationResult)
    requires ResultOf(s, reqs, offers, b, baseline, res)
    ensures res.unmatchedIngredients == NamesUnmatched(res.items)
  {
    NamesAreUnmatched(res.items, reqs, b);
  }
}
