/** Price comparison: the cheapest offers per ingredient, and its own cost formula. */
module PriceComparison {
  import opened Sequences
  import opened Options
  import opened BasketTypes
  import opened Picking
  import opened Units
  import opened OfferBuilding

  datatype OfferRow = OfferRow(productId: string, storeCode: StoreCode, effectiveCostCents: int)

  datatype ComparisonRow = ComparisonRow(ingredientId: string, requiredQtyG: Option<real>, offers: seq<OfferRow>)

  datatype Ingredient = Ingredient(id: string, gramsPerPiece: Option<real>)

  const MAX_OFFERS_PER_INGREDIENT := 6

  /** Cost of meeting the required grams with packs of this product; one pack when grams are unknown. */
  function EffectiveCostCents(
    priceCents: int, packSize: real, packUnit: string, unitCount: int,
    requiredQtyG: Option<real>, gramsPerPiece: Option<real>): int
  {
    if requiredQtyG.None? || requiredQtyG.value <= 0.0 then priceCents
    else
      var canonical := PackSizeToCanonical(packSize, packUnit, unitCount);
      var packQtyG :=
        if canonical.unit == Grams || canonical.unit == Millilitres then Some(canonical.value)
        else if Positive(gramsPerPiece) then Some(GramsOfPieces(canonical.value, gramsPerPiece.value))
        else None;
      CostInPacks(priceCents, requiredQtyG.value, packQtyG)
  }

  function CostInPacks(priceCents: int, requiredQtyG: real, packQtyG: Option<real>): int {
    if packQtyG.None? || packQtyG.value <= 0.0 then priceCents
    else
      var packs := Ceil(requiredQtyG / packQtyG.value);
      (if packs < 1 then 1 else packs) * priceCents
  }

  lemma CostInPacksAgrees(r: Requirement, o: Offer)
    ensures MakeAssignment(r, o).costCents ==
            if r.requiredQtyG.None? || r.requiredQtyG.value <= 0.0 then o.priceCents
            else CostInPacks(o.priceCents, r.requiredQtyG.value, o.packQtyG)
  {
    if !KnownGrams(r, o) {
      assert PacksNeeded(r, o) == 1;
      assert 1 * o.priceCents == o.priceCents;
    }
  }

  /** The comparison's formula and the optimizer's pack arithmetic always agree. */
  lemma CostFormulasAgree(r: Requirement, product: Product, gramsPerPiece: Option<real>, priceCents: int)
    ensures EffectiveCostCents(priceCents, product.packSize, product.packUnit, product.unitCount,
                               r.requiredQtyG, gramsPerPiece)
            == MakeAssignment(r, ToOffer(product, gramsPerPiece, priceCents)).costCents
  {
    var offer := ToOffer(product, gramsPerPiece, priceCents);
    CostInPacksAgrees(r, offer);
  }

  // ---- sorting ----

  /** Inserts a row after every row that costs no more: equal costs keep their order. */
  function Insert(sorted: seq<OfferRow>, row: OfferRow): seq<OfferRow> {
    if sorted == [] || sorted[|sorted| - 1].effectiveCostCents <= row.effectiveCostCents then sorted + [row]
    else Insert(sorted[..|sorted| - 1], row) + [sorted[|sorted| - 1]]
  }

  /** The stable sort by effective cost. */
  function SortByCost(rows: seq<OfferRow>): seq<OfferRow> {
    if rows == [] then [] else Insert(SortByCost(rows[..|rows| - 1]), rows[|rows| - 1])
  }

  ghost predicate SortedByCost(rows: seq<OfferRow>) {
    forall i, j :: 0 <= i < j < |rows| ==> rows[i].effectiveCostCents <= rows[j].effectiveCostCents
  }

  lemma {:induction false} InsertMultiset(sorted: seq<OfferRow>, row: OfferRow)
    ensures multiset(Insert(sorted, row)) == multiset(sorted) + multiset{row}
    ensures |Insert(sorted, row)| == |sorted| + 1
  {
    if sorted != [] && sorted[|sorted| - 1].effectiveCostCents > row.effectiveCostCents {
      InsertMultiset(sorted[..|sorted| - 1], row);
      assert sorted == sorted[..|sorted| - 1] + [sorted[|sorted| - 1]];
    }
  }

  /** Insertion keeps the order, and its last row is the dearer of the two last ones. */
  lemma {:induction false} InsertSorted(sorted: seq<OfferRow>, row: OfferRow)
    requires SortedByCost(sorted)
    ensures SortedByCost(Insert(sorted, row)) && Insert(sorted, row) != []
    ensures var last := Insert(sorted, row)[|Insert(sorted, row)| - 1];
      last == row || (sorted != [] && last == sorted[|sorted| - 1])
  {
    if sorted != [] && sorted[|sorted| - 1].effectiveCostCents > row.effectiveCostCents {
      InsertSorted(sorted[..|sorted| - 1], row);
      AppendSorted(Insert(sorted[..|sorted| - 1], row), sorted[|sorted| - 1]);
    } else {
      AppendSorted(sorted, row);
    }
  }

  lemma AppendSorted(rows: seq<OfferRow>, row: OfferRow)
    requires SortedByCost(rows)
    requires rows != [] ==> rows[|rows| - 1].effectiveCostCents <= row.effectiveCostCents
    ensures SortedByCost(rows + [row])
  {
  }

  lemma {:induction false} InsertHead(sorted: seq<OfferRow>, row: OfferRow)
    requires SortedByCost(sorted)
    ensures Insert(sorted, row) != []
    ensures Insert(sorted, row)[0] ==
            if sorted == [] || row.effectiveCostCents < sorted[0].effectiveCostCents then row else sorted[0]
  {
    if sorted != [] && sorted[|sorted| - 1].effectiveCostCents > row.effectiveCostCents {
      InsertHead(sorted[..|sorted| - 1], row);
    }
  }

  /** Sorting permutes the rows into order. */
  lemma {:induction false} SortPermutes(rows: seq<OfferRow>)
    ensures SortedByCost(SortByCost(rows))
    ensures multiset(SortByCost(rows)) == multiset(rows)
    ensures |SortByCost(rows)| == |rows|
  {
    if rows != [] {
      var init, row := rows[..|rows| - 1], rows[|rows| - 1];
      SortPermutes(init);
      InsertSorted(SortByCost(init), row);
      InsertMultiset(SortByCost(init), row);
      MultisetSnoc(rows);
    }
  }

  lemma MultisetSnoc(rows: seq<OfferRow>)
    requires rows != []
    ensures multiset(rows) == multiset(rows[..|rows| - 1]) + multiset{rows[|rows| - 1]}
  {
    assert rows == rows[..|rows| - 1] + [rows[|rows| - 1]];
  }

  /** The first cheapest row comes out in front. */
  lemma {:induction false} SortFront(rows: seq<OfferRow>) returns (i: int)
    requires rows != []
    ensures |SortByCost(rows)| == |rows|
    ensures FirstCheapestRow(rows, i) && SortByCost(rows)[0] == rows[i]
  {
    var init, row := rows[..|rows| - 1], rows[|rows| - 1];
    SortPermutes(rows);
    SortPermutes(init);
    InsertHead(SortByCost(init), row);
    i := |rows| - 1;
    if init != [] {
      var k := SortFront(init);
      FirstOfMore(rows, k);
      if row.effectiveCostCents >= init[k].effectiveCostCents {
        i := k;
      }
    }
  }

  lemma FirstOfMore(rows: seq<OfferRow>, k: int)
    requires rows != [] && FirstCheapestRow(rows[..|rows| - 1], k)
    ensures FirstCheapestRow(
              rows, if rows[|rows| - 1].effectiveCostCents >= rows[k].effectiveCostCents then k else |rows| - 1)
  {
    assert forall j :: 0 <= j < |rows| - 1 ==> rows[j] == rows[..|rows| - 1][j];
  }

  /** The rows of one cost, in order. */
  ghost function CostingExactly(rows: seq<OfferRow>, cost: int): seq<OfferRow> {
    if rows == [] then []
    else
      var before, row := CostingExactly(rows[..|rows| - 1], cost), rows[|rows| - 1];
      if row.effectiveCostCents == cost then before + [row] else before
  }

  lemma {:induction false} InsertIsStable(sorted: seq<OfferRow>, row: OfferRow, cost: int)
    ensures CostingExactly(Insert(sorted, row), cost) ==
            CostingExactly(sorted, cost) + if row.effectiveCostCents == cost then [row] else []
  {
    if sorted == [] || sorted[|sorted| - 1].effectiveCostCents <= row.effectiveCostCents {
      AppendInit(sorted, row);
    } else {
      InsertIsStable(sorted[..|sorted| - 1], row, cost);
      AppendInit(Insert(sorted[..|sorted| - 1], row), sorted[|sorted| - 1]);
    }
  }

  /** Rows of the same cost stay in the order they had. */
  lemma {:induction false} SortIsStable(rows: seq<OfferRow>, cost: int)
    ensures CostingExactly(SortByCost(rows), cost) == CostingExactly(rows, cost)
  {
    if rows != [] {
      SortIsStable(rows[..|rows| - 1], cost);
      InsertIsStable(SortByCost(rows[..|rows| - 1]), rows[|rows| - 1], cost);
    }
  }

  ghost predicate FirstCheapestRow(rows: seq<OfferRow>, i: int) {
    && 0 <= i < |rows|
    && forall j :: 0 <= j < |rows| ==>
         && rows[i].effectiveCostCents <= rows[j].effectiveCostCents
         && (j < i ==> rows[i].effectiveCostCents < rows[j].effectiveCostCents)
  }

  // ---- the comparison ----

  /** The unsorted rows of one ingredient. */
  function RowsOf(matches: seq<Match>, ingredient: Ingredient, prices: Prices, requiredQtyG: Option<real>)
    : seq<OfferRow>
  {
    if matches == [] then []
    else
      var before, m := RowsOf(matches[..|matches| - 1], ingredient, prices, requiredQtyG), matches[|matches| - 1];
      if m.ingredientId == ingredient.id && m.product.id in prices
      then before + [RowOf(m, ingredient, prices[m.product.id], requiredQtyG)]
      else before
  }

  function RowOf(m: Match, ingredient: Ingredient, priceCents: int, requiredQtyG: Option<real>): OfferRow {
    OfferRow(m.product.id, m.product.store.code,
             EffectiveCostCents(priceCents, m.product.packSize, m.product.packUnit, m.product.unitCount,
                                requiredQtyG, ingredient.gramsPerPiece))
  }

  function Shown(rows: seq<OfferRow>): seq<OfferRow> {
    var sorted := SortByCost(rows);
    if |sorted| > MAX_OFFERS_PER_INGREDIENT then sorted[..MAX_OFFERS_PER_INGREDIENT] else sorted
  }

  method Compare(ingredients: seq<Ingredient>, matches: seq<Match>, prices: Prices, requiredQtyG: Option<real>)
    returns (rows: seq<ComparisonRow>)
    ensures |rows| == |ingredients|
    ensures forall i :: 0 <= i < |rows| ==>
              rows[i] == ComparisonRow(ingredients[i].id, requiredQtyG,
                                       Shown(RowsOf(matches, ingredients[i], prices, requiredQtyG)))
  {
    rows := [];
    for i := 0 to |ingredients|
      invariant |rows| == i
      invariant forall j :: 0 <= j < i ==>
                  rows[j] == ComparisonRow(ingredients[j].id, requiredQtyG,
                                           Shown(RowsOf(matches, ingredients[j], prices, requiredQtyG)))
    {
      var ingredient := ingredients[i];
      var offers := [];
      for j := 0 to |matches|
        invariant offers == RowsOf(matches[..j], ingredient, prices, requiredQtyG)
      {
        PrefixStep(matches, j);
        var m := matches[j];
        if m.ingredientId == ingredient.id && m.product.id in prices {
          offers := offers + [RowOf(m, ingredient, prices[m.product.id], requiredQtyG)];
        }
      }
      FullPrefix(matches);
      rows := rows + [ComparisonRow(ingredient.id, requiredQtyG, Shown(offers))];
    }
  }

  /** Cutting the list hides only rows at least as dear as every row shown. */
  lemma ShownAreCheapest(rows: seq<OfferRow>)
    ensures |Shown(rows)| == if |rows| < 6 then |rows| else 6
    ensures SortedByCost(Shown(rows))
    ensures exists hidden: seq<OfferRow> ::
              && multiset(rows) == multiset(Shown(rows)) + multiset(hidden)
              && forall x, y :: x in Shown(rows) && y in hidden ==> x.effectiveCostCents <= y.effectiveCostCents
  {
    SortPermutes(rows);
    var sorted, shown := SortByCost(rows), Shown(rows);
    var hidden := sorted[|shown|..];
    assert sorted == shown + hidden;
    assert multiset(rows) == multiset(shown) + multiset(hidden);
  }

  /** Row by row, the comparison lists the optimizer's offers at the optimizer's costs. */
  lemma {:induction false} RowsMirrorOffers(
    matches: seq<Match>, ingredient: Ingredient, prices: Prices, r: Requirement)
    requires forall i :: 0 <= i < |matches| && matches[i].ingredientId == ingredient.id ==>
               matches[i].gramsPerPiece == ingredient.gramsPerPiece
    ensures var rows, offers := RowsOf(matches, ingredient, prices, r.requiredQtyG),
                                OffersOf(matches, ingredient.id, {}, prices);
      && |rows| == |offers|
      && forall i :: 0 <= i < |rows| ==>
           rows[i] == OfferRow(offers[i].productId, offers[i].storeCode, MakeAssignment(r, offers[i]).costCents)
  {
    if matches != [] {
      var m := matches[|matches| - 1];
      RowsMirrorOffers(matches[..|matches| - 1], ingredient, prices, r);
      if m.ingredientId == ingredient.id && m.product.id in prices {
        CostFormulasAgree(r, m.product, m.gramsPerPiece, prices[m.product.id]);
      }
    }
  }

  /** The first row of the sorted, cut comparison is the offer CHEAPEST buys, at the price it pays. */
  lemma FirstRowIsCheapest(matches: seq<Match>, ingredient: Ingredient, prices: Prices, r: Requirement)
    requires forall i :: 0 <= i < |matches| && matches[i].ingredientId == ingredient.id ==>
               matches[i].gramsPerPiece == ingredient.gramsPerPiece
    ensures var shown := Shown(RowsOf(matches, ingredient, prices, r.requiredQtyG));
      match CheapestOf(r, OffersOf(matches, ingredient.id, {}, prices), None)
      case None => shown == []
      case Some(a) => shown != [] && shown[0] == OfferRow(a.offer.productId, a.offer.storeCode, a.costCents)
  {
    var rows, offers := RowsOf(matches, ingredient, prices, r.requiredQtyG),
                        OffersOf(matches, ingredient.id, {}, prices);
    RowsMirrorOffers(matches, ingredient, prices, r);
    CheapestOfIsFirstLeast(r, offers, None);
    match CheapestOf(r, offers, None)
    case None =>
      assert forall k :: 0 <= k < |offers| ==> Allowed(None, offers[k].storeCode);
    case Some(a) =>
      var i :| BoughtAt(r, offers, i, a) && FirstLeast(r, offers, None, i);
      var j := SortFront(rows);
      SameFirst(r, offers, rows, i, j);
  }

  lemma SameFirst(r: Requirement, offers: seq<Offer>, rows: seq<OfferRow>, i: int, j: int)
    requires |rows| == |offers|
    requires forall k :: 0 <= k < |rows| ==>
               rows[k] == OfferRow(offers[k].productId, offers[k].storeCode, MakeAssignment(r, offers[k]).costCents)
    requires FirstLeast(r, offers, None, i) && FirstCheapestRow(rows, j)
    ensures i == j
  {
    assert Allowed(None, offers[j].storeCode);
    assert rows[i].effectiveCostCents == MakeAssignment(r, offers[i]).costCents;
    assert rows[j].effectiveCostCents == MakeAssignment(r, offers[j]).costCents;
  }
}
