/** Turning a basket into the result a shopper sees, and the books balancing. */
module Results {
  import opened Sequences
  import opened Options
  import opened OrderedMaps
  import opened BasketTypes
  import opened Picking
  import opened Grouping

  datatype Strategy = CHEAPEST | CONVENIENCE | DELIVERY | QUALITY

  datatype StoreLine = StoreLine(
    storeCode: StoreCode, storeName: string, itemCount: nat, subtotalCents: int, deliveryCents: int)

  datatype ItemLine = ItemLine(
    ingredientName: string, requiredQtyG: Option<real>, quantity: int,
    unitPriceCents: int, totalCents: int, unmatched: bool, productId: Option<string>)

  datatype OptimizationResult = OptimizationResult(
    strategy: Strategy, totalCents: int, deliveryCents: int, grandTotalCents: int, storeCount: nat,
    savingsCents: int, storeBreakdown: seq<StoreLine>, items: seq<ItemLine>, unmatchedIngredients: seq<string>)

  /** `Math.round`: halves go up. */
  function Round(x: real): int {
    (x + 0.5).Floor
  }

  function Savings(baseline: Option<real>, grandTotalCents: int): int {
    match baseline
    case None => 0
    case Some(mean) =>
      var saved := Round(mean - grandTotalCents as real);
      if saved < 0 then 0 else saved
  }

  // ---- sums over the printed lines ----

  function SumItems(items: seq<ItemLine>): int {
    if items == [] then 0 else SumItems(items[..|items| - 1]) + items[|items| - 1].totalCents
  }

  function SumStoreSubtotals(lines: seq<StoreLine>): int {
    if lines == [] then 0 else SumStoreSubtotals(lines[..|lines| - 1]) + lines[|lines| - 1].subtotalCents
  }

  function SumStoreDeliveries(lines: seq<StoreLine>): int {
    if lines == [] then 0 else SumStoreDeliveries(lines[..|lines| - 1]) + lines[|lines| - 1].deliveryCents
  }

  function SumItemCounts(lines: seq<StoreLine>): nat {
    if lines == [] then 0 else SumItemCounts(lines[..|lines| - 1]) + lines[|lines| - 1].itemCount
  }

  // ---- what the lines must say ----

  /** The printed line of one requirement. */
  ghost predicate IsItemOf(item: ItemLine, r: Requirement, b: Basket) {
    && item.ingredientName == r.name
    && item.requiredQtyG == r.requiredQtyG
    && (item.unmatched <==> r.key !in b.entries)
    && (if r.key in b.entries then
          var a := b.entries[r.key];
          && item.quantity == a.packs && item.unitPriceCents == a.offer.priceCents
          && item.totalCents == a.costCents && item.productId == Some(a.offer.productId)
        else
          item.quantity == 0 && item.unitPriceCents == 0 && item.totalCents == 0 && item.productId.None?)
  }

  /** The names of the requirements the basket leaves out, in order. */
  function UnmatchedNames(reqs: seq<Requirement>, b: Basket): seq<string> {
    if reqs == [] then []
    else
      var before, r := UnmatchedNames(reqs[..|reqs| - 1], b), reqs[|reqs| - 1];
      if r.key in b.entries then before else before + [r.name]
  }

  ghost predicate IsStoreLine(line: StoreLine, lines: seq<Assignment>, s: StoreCode) {
    && line.storeCode == s
    && line.itemCount == CountAt(lines, s)
    && line.subtotalCents == SubtotalAt(lines, s)
    && FirstTermsAt(lines, s).Some?
    && line.storeName == FirstTermsAt(lines, s).value.storeName
    && line.deliveryCents == DeliveryFee(FirstTermsAt(lines, s).value, line.subtotalCents)
  }

  ghost predicate IsBreakdown(breakdown: seq<StoreLine>, lines: seq<Assignment>) {
    && |breakdown| == |StoresOf(lines)|
    && forall i :: 0 <= i < |breakdown| ==> IsStoreLine(breakdown[i], lines, StoresOf(lines)[i])
  }

  /** The result a basket is turned into. */
  ghost predicate IsResult(
    res: OptimizationResult, strategy: Strategy, reqs: seq<Requirement>, b: Basket, baseline: Option<real>)
    requires b.Valid()
  {
    && res.strategy == strategy
    && IsBreakdown(res.storeBreakdown, b.Values())
    && |res.items| == |reqs|
    && (forall i :: 0 <= i < |reqs| ==> IsItemOf(res.items[i], reqs[i], b))
    && res.unmatchedIngredients == UnmatchedNames(reqs, b)
    && res.totalCents == SumStoreSubtotals(res.storeBreakdown)
    && res.deliveryCents == SumStoreDeliveries(res.storeBreakdown)
    && res.grandTotalCents == res.totalCents + res.deliveryCents
    && res.storeCount == |res.storeBreakdown|
    && res.savingsCents == Savings(baseline, res.grandTotalCents)
  }

  // ---- the books balance ----

  lemma {:induction false} BreakdownSums(breakdown: seq<StoreLine>, lines: seq<Assignment>, stores: seq<StoreCode>)
    requires |breakdown| == |stores|
    requires forall i :: 0 <= i < |breakdown| ==> IsStoreLine(breakdown[i], lines, stores[i])
    ensures SumStoreSubtotals(breakdown) == SumSubtotals(stores, lines)
    ensures SumItemCounts(breakdown) == SumCounts(stores, lines)
    ensures SumStoreSubtotals(breakdown) + SumStoreDeliveries(breakdown) == SumGrands(stores, lines)
  {
    if breakdown != [] {
      BreakdownSums(breakdown[..|breakdown| - 1], lines, stores[..|stores| - 1]);
    }
  }

  /** What the requirements whose keys lie in `keys` cost, summed in requirement order. */
  ghost function CostOfKeys(reqs: seq<Requirement>, entries: map<Key, Assignment>, keys: set<Key>): int
    requires keys <= entries.Keys
  {
    if reqs == [] then 0
    else
      var k := reqs[|reqs| - 1].key;
      CostOfKeys(reqs[..|reqs| - 1], entries, keys) + if k in keys then entries[k].costCents else 0
  }

  ghost function CountOfKeys(reqs: seq<Requirement>, keys: set<Key>): nat {
    if reqs == [] then 0
    else CountOfKeys(reqs[..|reqs| - 1], keys) + if reqs[|reqs| - 1].key in keys then 1 else 0
  }

  lemma {:induction false} OneMoreKey(reqs: seq<Requirement>, entries: map<Key, Assignment>, keys: set<Key>, k: Key)
    requires DistinctKeys(reqs) && keys <= entries.Keys && k in entries && k !in keys
    ensures CostOfKeys(reqs, entries, keys + {k}) ==
            CostOfKeys(reqs, entries, keys) + if HasKey(reqs, k) then entries[k].costCents else 0
    ensures CountOfKeys(reqs, keys + {k}) == CountOfKeys(reqs, keys) + if HasKey(reqs, k) then 1 else 0
  {
    if reqs != [] {
      var init := reqs[..|reqs| - 1];
      OneMoreKey(init, entries, keys, k);
      HasKeyStep(reqs, k);
    }
  }

  lemma HasKeyStep(reqs: seq<Requirement>, k: Key)
    requires reqs != [] && DistinctKeys(reqs)
    ensures HasKey(reqs, k) <==> HasKey(reqs[..|reqs| - 1], k) || reqs[|reqs| - 1].key == k
    ensures !(HasKey(reqs[..|reqs| - 1], k) && reqs[|reqs| - 1].key == k)
  {
    var init := reqs[..|reqs| - 1];
    if HasKey(init, k) {
      var i :| 0 <= i < |init| && init[i].key == k;
      assert reqs[i].key == k;
    }
  }

  lemma {:induction false} NoKeys(reqs: seq<Requirement>, entries: map<Key, Assignment>)
    ensures CostOfKeys(reqs, entries, {}) == 0 && CountOfKeys(reqs, {}) == 0
  {
    if reqs != [] {
      NoKeys(reqs[..|reqs| - 1], entries);
    }
  }

  /** Summing a basket in its own order or in requirement order gives the same. */
  lemma {:induction false} OrderDoesNotMatter(
    reqs: seq<Requirement>, entries: map<Key, Assignment>, order: seq<Key>)
    requires DistinctKeys(reqs)
    requires forall i, j :: 0 <= i < j < |order| ==> order[i] != order[j]
    requires forall i :: 0 <= i < |order| ==> order[i] in entries && HasKey(reqs, order[i])
    ensures KeySet(order) <= entries.Keys
    ensures CostOfKeys(reqs, entries, KeySet(order)) == TotalCost(OMap(order, entries).Values())
    ensures CountOfKeys(reqs, KeySet(order)) == |order|
  {
    if order == [] {
      NoKeys(reqs, entries);
      assert KeySet(order) == {};
    } else {
      var init, k := order[..|order| - 1], order[|order| - 1];
      OrderDoesNotMatter(reqs, entries, init);
      OneMoreKey(reqs, entries, KeySet(init), k);
      assert KeySet(order) == KeySet(init) + {k};
      ValuesSnoc(order, entries);
      TotalCostAppend(OMap(init, entries).Values(), entries[k]);
    }
  }

  lemma {:induction false} ItemSums(items: seq<ItemLine>, reqs: seq<Requirement>, b: Basket)
    requires |items| == |reqs| && forall i :: 0 <= i < |reqs| ==> IsItemOf(items[i], reqs[i], b)
    ensures SumItems(items) == CostOfKeys(reqs, b.entries, b.entries.Keys)
    ensures |UnmatchedNames(reqs, b)| + CountOfKeys(reqs, b.entries.Keys) == |reqs|
  {
    if reqs != [] {
      ItemSums(items[..|items| - 1], reqs[..|reqs| - 1], b);
    }
  }

  /** A basket that holds only requirements, each priced at packs times price. */
  ghost predicate BasketOf(reqs: seq<Requirement>, b: Basket) {
    && DistinctKeys(reqs)
    && b.Valid()
    && (forall k <- b.entries :: HasKey(reqs, k))
    && (forall k <- b.entries :: b.entries[k].costCents == b.entries[k].packs * b.entries[k].offer.priceCents)
  }

  /**
   * The accounts: item lines, store subtotals and `totalCents` are three ways of
   * adding up the same money; store item counts and unmatched names account for every
   * requirement; the grand total is goods plus one delivery per store.
   */
  lemma BooksBalance(
    res: OptimizationResult, strategy: Strategy, reqs: seq<Requirement>, b: Basket, baseline: Option<real>)
    requires BasketOf(reqs, b) && IsResult(res, strategy, reqs, b, baseline)
    ensures res.totalCents == TotalCost(b.Values())
    ensures SumItems(res.items) == res.totalCents
    ensures SumStoreSubtotals(res.storeBreakdown) == res.totalCents
    ensures SumItemCounts(res.storeBreakdown) + |res.unmatchedIngredients| == |reqs|
    ensures res.grandTotalCents == GrandOf(b.Values())
    ensures res.storeCount == |StoresOf(b.Values())|
    ensures forall i :: 0 <= i < |res.items| ==>
              res.items[i].totalCents == res.items[i].quantity * res.items[i].unitPriceCents
  {
    StoreBooks(res.storeBreakdown, b.Values());
    ItemBooks(res.items, reqs, b);
    ItemsMultiply(res.items, reqs, b);
  }

  lemma StoreBooks(breakdown: seq<StoreLine>, lines: seq<Assignment>)
    requires IsBreakdown(breakdown, lines)
    ensures SumStoreSubtotals(breakdown) == TotalCost(lines)
    ensures SumItemCounts(breakdown) == |lines|
    ensures SumStoreSubtotals(breakdown) + SumStoreDeliveries(breakdown) == GrandOf(lines)
  {
    StoresOfFacts(lines);
    BreakdownSums(breakdown, lines, StoresOf(lines));
    GroupsConserve(StoresOf(lines), lines);
  }

  lemma ItemBooks(items: seq<ItemLine>, reqs: seq<Requirement>, b: Basket)
    requires BasketOf(reqs, b) && |items| == |reqs|
    requires forall i :: 0 <= i < |reqs| ==> IsItemOf(items[i], reqs[i], b)
    ensures SumItems(items) == TotalCost(b.Values())
    ensures |b.order| + |UnmatchedNames(reqs, b)| == |reqs|
  {
    ItemSums(items, reqs, b);
    OrderDoesNotMatter(reqs, b.entries, b.order);
    RowCount(b, {});
    assert OMap(b.order, b.entries) == b;
  }

  lemma ItemsMultiply(items: seq<ItemLine>, reqs: seq<Requirement>, b: Basket)
    requires BasketOf(reqs, b) && |items| == |reqs|
    requires forall i :: 0 <= i < |reqs| ==> IsItemOf(items[i], reqs[i], b)
    ensures forall i :: 0 <= i < |items| ==> items[i].totalCents == items[i].quantity * items[i].unitPriceCents
  {
    forall i | 0 <= i < |items|
      ensures items[i].totalCents == items[i].quantity * items[i].unitPriceCents
    {
      assert IsItemOf(items[i], reqs[i], b);
    }
  }

  // ---- the loops ----

  method StoreBreakdown(byStore: OMap<StoreCode, Group>, ghost lines: seq<Assignment>)
    returns (breakdown: seq<StoreLine>)
    requires IsGrouping(byStore, lines, byStore.entries.Keys)
    ensures IsBreakdown(breakdown, lines)
  {
    breakdown := [];
    for i := 0 to |byStore.order|
      invariant |breakdown| == i
      invariant forall j :: 0 <= j < i ==> IsStoreLine(breakdown[j], lines, byStore.order[j])
    {
      var s := byStore.order[i];
      var group := byStore.entries[s];
      assert Some(group) == GroupAt(lines, s, true);
      breakdown := breakdown
        + [StoreLine(s, group.info.storeName, group.itemCount, group.subtotalCents, group.deliveryCents)];
    }
  }

  method ItemLines(reqs: seq<Requirement>, assignments: Basket)
    returns (items: seq<ItemLine>, unmatchedIngredients: seq<string>)
    ensures |items| == |reqs| && forall i :: 0 <= i < |reqs| ==> IsItemOf(items[i], reqs[i], assignments)
    ensures unmatchedIngredients == UnmatchedNames(reqs, assignments)
  {
    items, unmatchedIngredients := [], [];
    for i := 0 to |reqs|
      invariant |items| == i && forall j :: 0 <= j < i ==> IsItemOf(items[j], reqs[j], assignments)
      invariant unmatchedIngredients == UnmatchedNames(reqs[..i], assignments)
    {
      PrefixStep(reqs, i);
      var r := reqs[i];
      if r.key in assignments.entries {
        var a := assignments.entries[r.key];
        items := items + [ItemLine(r.name, r.requiredQtyG, a.packs, a.offer.priceCents, a.costCents, false,
                                   Some(a.offer.productId))];
      } else {
        items := items + [ItemLine(r.name, r.requiredQtyG, 0, 0, 0, true, None)];
        unmatchedIngredients := unmatchedIngredients + [r.name];
      }
    }
    FullPrefix(reqs);
  }

  method AddUp(breakdown: seq<StoreLine>) returns (totalCents: int, deliveryCents: int)
    ensures totalCents == SumStoreSubtotals(breakdown)
    ensures deliveryCents == SumStoreDeliveries(breakdown)
  {
    totalCents, deliveryCents := 0, 0;
    for i := 0 to |breakdown|
      invariant totalCents == SumStoreSubtotals(breakdown[..i])
      invariant deliveryCents == SumStoreDeliveries(breakdown[..i])
    {
      PrefixStep(breakdown, i);
      totalCents := totalCents + breakdown[i].subtotalCents;
      deliveryCents := deliveryCents + breakdown[i].deliveryCents;
    }
    FullPrefix(breakdown);
  }

  method BuildResult(strategy: Strategy, reqs: seq<Requirement>, assignments: Basket, baseline: Option<real>)
    returns (res: OptimizationResult)
    requires assignments.Valid()
    ensures IsResult(res, strategy, reqs, assignments, baseline)
  {
    var byStore := GroupByStore(assignments);
    var storeBreakdown := StoreBreakdown(byStore, assignments.Values());
    var items, unmatched := ItemLines(reqs, assignments);
    var totalCents, deliveryCents := AddUp(storeBreakdown);
    var grandTotalCents := totalCents + deliveryCents;
    res := OptimizationResult(
      strategy, totalCents, deliveryCents, grandTotalCents, |storeBreakdown|,
      Savings(baseline, grandTotalCents), storeBreakdown, items, unmatched);
  }
}
