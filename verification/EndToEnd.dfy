/** The pantry, the list and the basket together. */
module EndToEnd {
  import opened Options
  import opened OrderedMaps
  import opened BasketTypes
  import opened Picking
  import opened Units
  import opened Requirements
  import opened Pantry
  import opened Preparation
  import opened Results
  import opened Optimizer
  import opened Guarantees
  import opened OfferBuilding

  /** A listed quantity is met to within half a gram by the pantry alone, or the rest of it stays on the list. */
  lemma CoveredOrStillListed(reqs: seq<Requirement>, items: seq<PantryItem>, i: nat)
    requires i < |reqs| && reqs[i].requiredQtyG.Some?
    ensures match AfterPantry(reqs[i], StockFor(items, reqs[i]))
      case None => Usable(items, reqs[i]) >= reqs[i].requiredQtyG.value - 0.5
      case Some(rest) => rest in Remaining(reqs, items)
  {
    var left := AfterPantry(reqs[i], StockFor(items, reqs[i]));
    if left.Some? {
      assert LeftOf(reqs, items, i, left.value);
      RemainingFacts(reqs, items, left.value);
    }
  }

  /**
   * Whatever the strategy: once what is left of a quantity is bought in packs of known
   * grams, pantry plus packs reach the quantity that was listed.
   */
  lemma ListedQuantityIsMet(
    s: Strategy, reqs: seq<Requirement>, items: seq<PantryItem>, offers: OfferBook, b: Basket, i: nat,
    rest: Requirement)
    requires DistinctKeys(reqs) && i < |reqs| && reqs[i].requiredQtyG.Some?
    requires AfterPantry(reqs[i], StockFor(items, reqs[i])) == Some(rest)
    requires Outcome(s, Remaining(reqs, items), offers, b)
    requires rest.key in b.entries && Positive(b.entries[rest.key].offer.packQtyG)
    ensures Usable(items, reqs[i]) + PackedGrams(b.entries[rest.key].packs, b.entries[rest.key].offer)
            >= reqs[i].requiredQtyG.value
  {
    CoveredOrStillListed(reqs, items, i);
    RemainingKeysDistinct(reqs, items);
    OutcomeBuys(s, Remaining(reqs, items), offers, b);
    PacksAreForTheRest(Remaining(reqs, items), offers, b, rest);
    PantryPlusPacksSuffice(reqs[i], items, b.entries[rest.key].offer, 1);
  }

  lemma PacksAreForTheRest(reqs: seq<Requirement>, offers: OfferBook, b: Basket, rest: Requirement)
    requires DistinctKeys(reqs) && Buys(reqs, offers, b)
    requires rest in reqs && rest.key in b.entries
    ensures b.entries[rest.key].packs == PacksNeeded(rest, b.entries[rest.key].offer)
  {
    assert BoughtForKey(reqs, offers, b, rest.key);
    var i, j :| 0 <= i < |reqs| && reqs[i].key == rest.key
      && BoughtAt(reqs[i], OffersFor(offers, rest.key), j, b.entries[rest.key]);
    var k :| 0 <= k < |reqs| && reqs[k] == rest;
    assert i == k;
  }

  // ---- from recipe lines to the basket ----

  /** What a recipe asks for under a key is what is gathered under it. */
  lemma GatheredGrams(q: Request, lookup: string -> Option<Found>, ops: TextOps, k: Key)
    requires AsksRecipe(q) && q.recipe.Some? && Quantifies(q.recipe.value, k, ops)
    ensures var book := Gathered(q, lookup, ops);
      k in book.entries
      && book.entries[k].requiredQtyG == Some(Times(q.servingsMultiplier, GramsUnder(q.recipe.value, k, ops)))
  {
    MergedGrams(Empty(), q.recipe.value, k, q.servingsMultiplier, ops);
    assert Mentions(q.recipe.value, k, ops);
    if q.ingredientNames.Some? {
      NamesChangeNothing(
        MergeLines(Empty(), q.recipe.value, q.servingsMultiplier, ops), q.ingredientNames.value, lookup, ops, k);
    }
  }

  /** Packs of known grams reach what is on the list. */
  lemma PacksReachList(reqs: seq<Requirement>, offers: OfferBook, b: Basket, rest: Requirement)
    requires DistinctKeys(reqs) && Buys(reqs, offers, b) && rest in reqs && rest.requiredQtyG.Some?
    requires rest.key in b.entries && Positive(b.entries[rest.key].offer.packQtyG)
    ensures PackedGrams(b.entries[rest.key].packs, b.entries[rest.key].offer) >= rest.requiredQtyG.value
  {
    PacksAreForTheRest(reqs, offers, b, rest);
    PacksCover(rest, b.entries[rest.key].offer, b.entries[rest.key].packs);
  }

  /** What is dropped has no other requirement under its key. */
  lemma DroppedKeyIsGone(reqs: seq<Requirement>, items: seq<PantryItem>, i: nat)
    requires DistinctKeys(reqs) && i < |reqs| && AfterPantry(reqs[i], StockFor(items, reqs[i])).None?
    ensures !HasKey(Remaining(reqs, items), reqs[i].key)
  {
    var left := Remaining(reqs, items);
    forall j | 0 <= j < |left|
      ensures left[j].key != reqs[i].key
    {
      RemainingFacts(reqs, items, left[j]);
      var k :| LeftOf(reqs, items, k, left[j]);
      assert k != i;
    }
  }

  /**
   * `total` grams under key `k` are met: by what is on hand to within half a gram when the
   * key is off the list, and together with packs of known grams when it is on it.
   */
  ghost predicate Met(list: seq<Requirement>, b: Basket, k: Key, onHand: real, total: real) {
    if !HasKey(list, k) then onHand >= total - 0.5
    else
      k in b.entries && Positive(b.entries[k].offer.packQtyG) ==>
        onHand + PackedGrams(b.entries[k].packs, b.entries[k].offer) >= total
  }

  lemma MetWithPantry(
    reqs: seq<Requirement>, items: seq<PantryItem>, offers: OfferBook, s: Strategy, b: Basket, i: nat)
    requires DistinctKeys(reqs) && i < |reqs| && reqs[i].requiredQtyG.Some?
    requires Outcome(s, Remaining(reqs, items), offers, b)
    ensures Met(Remaining(reqs, items), b, reqs[i].key, Usable(items, reqs[i]), reqs[i].requiredQtyG.value)
  {
    var r := reqs[i];
    CoveredOrStillListed(reqs, items, i);
    match AfterPantry(r, StockFor(items, r))
    case None =>
      DroppedKeyIsGone(reqs, items, i);
    case Some(rest) =>
      if r.key in b.entries && Positive(b.entries[r.key].offer.packQtyG) {
        ListedQuantityIsMet(s, reqs, items, offers, b, i, rest);
      }
      assert exists j :: 0 <= j < |Remaining(reqs, items)| && Remaining(reqs, items)[j] == rest;
  }

  lemma MetWithoutPantry(reqs: seq<Requirement>, offers: OfferBook, s: Strategy, b: Basket, i: nat)
    requires DistinctKeys(reqs) && i < |reqs| && reqs[i].requiredQtyG.Some?
    requires Outcome(s, reqs, offers, b)
    ensures Met(reqs, b, reqs[i].key, 0.0, reqs[i].requiredQtyG.value)
  {
    OutcomeBuys(s, reqs, offers, b);
    if reqs[i].key in b.entries && Positive(b.entries[reqs[i].key].offer.packQtyG) {
      PacksReachList(reqs, offers, b, reqs[i]);
    }
  }

  lemma GatheredAt(book: Book, k: Key) returns (i: nat)
    requires Consistent(book) && k in book.entries
    ensures i < |book.Values()| && book.Values()[i] == book.entries[k] && book.Values()[i].key == k
    ensures DistinctKeys(book.Values())
  {
    BookHasDistinctKeys(book);
    i :| 0 <= i < |book.order| && book.order[i] == k;
  }

  /** What the pantry is counted to have for a requirement. */
  function OnHand(q: Request, r: Requirement): real {
    if q.usePantry then Usable(q.pantry, r) else 0.0
  }

  /**
   * From the recipe's lines to the basket, whatever the strategy: the multiplier times
   * the grams of the lines under a key is met by pantry and packs.
   */
  lemma RequestIsMet(
    q: Request, lookup: string -> Option<Found>, ops: TextOps, p: Prepared, s: Strategy, b: Basket, k: Key)
    requires AsksRecipe(q) && q.recipe.Some? && IsPrepared(q, lookup, ops, Ok(p))
    requires Quantifies(q.recipe.value, k, ops)
    requires Outcome(s, p.requirements, p.offersByReq, b)
    ensures k in Gathered(q, lookup, ops).entries
    ensures Met(p.requirements, b, k, OnHand(q, Gathered(q, lookup, ops).entries[k]),
                Times(q.servingsMultiplier, GramsUnder(q.recipe.value, k, ops)))
  {
    GatheredGrams(q, lookup, ops, k);
    var i := GatheredAt(Gathered(q, lookup, ops), k);
    var reqs := Gathered(q, lookup, ops).Values();
    if q.usePantry {
      MetWithPantry(reqs, q.pantry, p.offersByReq, s, b, i);
    } else {
      MetWithoutPantry(reqs, p.offersByReq, s, b, i);
    }
  }

  /** What is left of a requirement is offered exactly what the whole of it was. */
  lemma RestKeepsOffers(
    reqs: seq<Requirement>, items: seq<PantryItem>, i: nat, matches: seq<Match>, excluded: set<StoreCode>,
    prices: Prices)
    returns (j: nat)
    requires i < |Remaining(reqs, items)|
    ensures j < |reqs| && IsRestOf(Remaining(reqs, items)[i], reqs[j], items)
    ensures WantedOffers(Remaining(reqs, items)[i], matches, excluded, prices)
            == WantedOffers(reqs[j], matches, excluded, prices)
  {
    var from := RemainingIsTheRest(reqs, items);
    j := from[i];
    assert RestOf(items)(reqs[j], Remaining(reqs, items)[i]);
  }

  /**
   * What a strategy that leaves nothing on offer out buys: every requirement still listed
   * that has a match on sale for its ingredient.
   */
  lemma OnSaleIsBought(
    q: Request, lookup: string -> Option<Found>, ops: TextOps, p: Prepared, s: Strategy, b: Basket, i: nat, m: Match)
    requires IsPrepared(q, lookup, ops, Ok(p)) && CoversOffered(s)
    requires Outcome(s, p.requirements, p.offersByReq, b)
    requires i < |p.requirements| && m in q.matches
    requires IsWantedFor(p.requirements[i], q.excluded, q.prices)(m)
    ensures p.requirements[i].key in b.entries
  {
    var r := p.requirements[i];
    var from := OffersAreTheMatches(r, q.matches, q.excluded, q.prices);
    var j :| 0 <= j < |q.matches| && q.matches[j] == m;
    assert j in from;
    assert OffersFor(p.offersByReq, r.key) == Wanted(q.matches, q.excluded, q.prices)(r);
    CoversExactlyOffered(s, p.requirements, p.offersByReq, b, i);
  }
}
