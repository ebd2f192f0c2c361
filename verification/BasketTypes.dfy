/**
 * Requirements, offers and assignments of the basket optimizer, with its pack
 * and cost arithmetic. Money is integer cents; grams and scores are reals.
 */
module BasketTypes {
  import opened Sequences
  import opened Options
  import opened OrderedMaps

  /** A store, known by its code; only equality of codes matters. */
  datatype StoreCode = StoreCode(name: string)

  /** A requirement's key: an ingredient id, or a text derived from a name. */
  datatype Key = Key(text: string)

  datatype Requirement = Requirement(
    key: Key, ingredientId: Option<string>, name: string, requiredQtyG: Option<real>)

  datatype Offer = Offer(
    productId: string, storeCode: StoreCode, storeName: string,
    packQtyG: Option<real>, packIsPiece: bool, priceCents: int,
    qualityTier: int, storeQualityScore: real,
    deliveryFeeCents: int, freeDeliveryMinCents: Option<int>)

  datatype Assignment = Assignment(offer: Offer, packs: int, costCents: int)

  /** What one store charges for a delivery. */
  datatype StoreTerms = StoreTerms(storeName: string, deliveryFeeCents: int, freeDeliveryMinCents: Option<int>)

  type OfferBook = map<Key, seq<Offer>>

  type Basket = OMap<Key, Assignment>

  function OffersFor(offers: OfferBook, key: Key): seq<Offer> {
    if key in offers then offers[key] else []
  }

  ghost predicate DistinctKeys(reqs: seq<Requirement>) {
    forall i, j :: 0 <= i < j < |reqs| ==> reqs[i].key != reqs[j].key
  }

  function TermsOf(o: Offer): StoreTerms {
    StoreTerms(o.storeName, o.deliveryFeeCents, o.freeDeliveryMinCents)
  }

  /** Every offer carries the fee fields of its store's row. */
  ghost predicate FromStores(offers: OfferBook, stores: StoreCode -> StoreTerms) {
    forall k, j :: k in offers && 0 <= j < |offers[k]| ==> TermsOf(offers[k][j]) == stores(offers[k][j].storeCode)
  }

  // ---- pack and cost arithmetic ----

  function Ceil(x: real): (n: int)
    ensures n as real - 1.0 < x <= n as real
  {
    -((-x).Floor)
  }

  predicate KnownGrams(r: Requirement, o: Offer) {
    r.requiredQtyG.Some? && r.requiredQtyG.value > 0.0 && o.packQtyG.Some? && o.packQtyG.value > 0.0
  }

  function PacksNeeded(r: Requirement, o: Offer): (packs: int)
    ensures packs >= 1
  {
    if KnownGrams(r, o) then
      var n := Ceil(r.requiredQtyG.value / o.packQtyG.value);
      if n < 1 then 1 else n
    else
      1
  }

  /** The pack count is the least positive one that covers the requirement. */
  lemma PacksNeededIsLeast(r: Requirement, o: Offer, n: int)
    requires KnownGrams(r, o)
    ensures n as real * o.packQtyG.value >= r.requiredQtyG.value <==> PacksNeeded(r, o) <= n
  {
    var need, pack := r.requiredQtyG.value, o.packQtyG.value;
    var q := need / pack;
    assert q * pack == need;
    assert q > 0.0;
    if PacksNeeded(r, o) <= n {
      assert q <= n as real;
      assert q * pack <= n as real * pack;
    } else {
      assert n as real < q;
      assert n as real * pack < q * pack;
    }
  }

  function MakeAssignment(r: Requirement, o: Offer): Assignment {
    var packs := PacksNeeded(r, o);
    Assignment(o, packs, packs * o.priceCents)
  }

  // ---- sums over assignments ----

  function TotalCost(s: seq<Assignment>): int {
    if s == [] then 0 else TotalCost(s[..|s| - 1]) + s[|s| - 1].costCents
  }

  lemma TotalCostAppend(s: seq<Assignment>, a: Assignment)
    ensures TotalCost(s + [a]) == TotalCost(s) + a.costCents
  {
    AppendInit(s, a);
  }

  /** Buying no dearer line by line is no dearer in total. */
  lemma {:induction false} TotalCostMonotone(s: seq<Assignment>, t: seq<Assignment>)
    requires |s| == |t|
    requires forall i :: 0 <= i < |s| ==> s[i].costCents <= t[i].costCents
    ensures TotalCost(s) <= TotalCost(t)
  {
    if s == [] {
    } else {
      TotalCostMonotone(s[..|s| - 1], t[..|t| - 1]);
    }
  }
}
