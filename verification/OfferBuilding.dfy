/** Turning product matches into the offers the optimizer works on. */
module OfferBuilding {
  import opened Sequences
  import opened Options
  import opened BasketTypes
  import opened Units

  datatype StoreRow = StoreRow(
    code: StoreCode, name: string, qualityScore: real, deliveryFeeCents: int, freeDeliveryMinCents: Option<int>)

  /** A product on sale; `packUnit` is the normalised unit name. */
  datatype Product = Product(
    id: string, packSize: real, packUnit: string, unitCount: int, qualityTier: int, store: StoreRow)

  /** A product matched to an ingredient, with that ingredient's weight per piece. */
  datatype Match = Match(product: Product, ingredientId: string, gramsPerPiece: Option<real>)

  type Prices = map<string, int>

  /** Pieces weighed by their grams per piece. */
  function GramsOfPieces(pieces: real, gramsPerPiece: real): real {
    pieces * gramsPerPiece
  }

  /** A pack's content in grams: direct, by weight per piece, or unknown. */
  function PackGrams(product: Product, gramsPerPiece: Option<real>): Option<real> {
    var canonical := PackSizeToCanonical(product.packSize, product.packUnit, product.unitCount);
    if canonical.unit == Grams || canonical.unit == Millilitres then Some(canonical.value)
    else if Positive(gramsPerPiece) then Some(GramsOfPieces(canonical.value, gramsPerPiece.value))
    else None
  }

  function ToOffer(product: Product, gramsPerPiece: Option<real>, priceCents: int): Offer {
    var canonical := PackSizeToCanonical(product.packSize, product.packUnit, product.unitCount);
    Offer(product.id, product.store.code, product.store.name, PackGrams(product, gramsPerPiece),
          canonical.unit == Piece, priceCents, product.qualityTier, product.store.qualityScore,
          product.store.deliveryFeeCents, product.store.freeDeliveryMinCents)
  }

  // ---- offers per requirement ----

  predicate Sellable(m: Match, excluded: set<StoreCode>, prices: Prices) {
    m.product.store.code !in excluded && m.product.id in prices
  }

  /** The offers for one ingredient, in match order. */
  function OffersOf(matches: seq<Match>, id: string, excluded: set<StoreCode>, prices: Prices): seq<Offer> {
    if matches == [] then []
    else
      var before, m := OffersOf(matches[..|matches| - 1], id, excluded, prices), matches[|matches| - 1];
      if m.ingredientId == id && Sellable(m, excluded, prices)
      then before + [ToOffer(m.product, m.gramsPerPiece, prices[m.product.id])]
      else before
  }

  function WantedOffers(r: Requirement, matches: seq<Match>, excluded: set<StoreCode>, prices: Prices): seq<Offer> {
    match r.ingredientId
    case Some(id) => if id == "" then [] else OffersOf(matches, id, excluded, prices)
    case None => []
  }

  /** `o` sells the match's product: its store's terms, its price, and the grams of the whole pack where known. */
  ghost predicate IsOfferOf(m: Match, prices: Prices, o: Offer) {
    var p, store := m.product, m.product.store;
    && p.id in prices && o.productId == p.id && o.priceCents == prices[p.id]
    && o.storeCode == store.code && o.storeName == store.name
    && o.qualityTier == p.qualityTier && o.storeQualityScore == store.qualityScore
    && o.deliveryFeeCents == store.deliveryFeeCents && o.freeDeliveryMinCents == store.freeDeliveryMinCents
    && HoldsGrams(o, PackSizeToCanonical(p.packSize, p.packUnit, p.unitCount), m.gramsPerPiece)
  }

  /** A pack's content: grams or millilitres as they are, pieces at their weight where it is positive. */
  ghost predicate HoldsGrams(o: Offer, pack: Normalized, gramsPerPiece: Option<real>) {
    && (o.packIsPiece <==> pack.unit == Piece)
    && (pack.unit != Piece ==> o.packQtyG == Some(pack.value))
    && (pack.unit == Piece ==>
          match gramsPerPiece
          case None => o.packQtyG == None
          case Some(w) =>
            if w > 0.0 then o.packQtyG.Some? && IsProduct(o.packQtyG.value, pack.value, w) else o.packQtyG == None)
  }

  ghost predicate IsProduct(grams: real, pieces: real, gramsPerPiece: real) {
    grams == pieces * gramsPerPiece
  }

  lemma PiecesWeighTheirProduct(pieces: real, gramsPerPiece: real)
    ensures IsProduct(GramsOfPieces(pieces, gramsPerPiece), pieces, gramsPerPiece)
  {
  }

  ghost function IsOfferAt(prices: Prices): (Match, Offer) -> bool {
    (m: Match, o: Offer) => IsOfferOf(m, prices, o)
  }

  /** The match is for the requirement's ingredient, at a store that is not excluded, and has a price. */
  ghost function IsWantedFor(r: Requirement, excluded: set<StoreCode>, prices: Prices): Match -> bool {
    (m: Match) =>
      && r.ingredientId == Some(m.ingredientId) && m.ingredientId != ""
      && m.product.store.code !in excluded && m.product.id in prices
  }

  lemma ToOfferIsTheMatch(m: Match, prices: Prices)
    requires m.product.id in prices
    ensures IsOfferOf(m, prices, ToOffer(m.product, m.gramsPerPiece, prices[m.product.id]))
  {
    if m.gramsPerPiece.Some? {
      var pack := PackSizeToCanonical(m.product.packSize, m.product.packUnit, m.product.unitCount);
      PiecesWeighTheirProduct(pack.value, m.gramsPerPiece.value);
    }
  }

  lemma {:induction false} OffersOfAreMatches(
    r: Requirement, id: string, matches: seq<Match>, excluded: set<StoreCode>, prices: Prices)
    returns (from: seq<nat>)
    requires r.ingredientId == Some(id) && id != ""
    ensures TakenFrom(
              OffersOf(matches, id, excluded, prices), from, matches, IsWantedFor(r, excluded, prices),
              IsOfferAt(prices))
  {
    from := [];
    if matches != [] {
      var init, m := matches[..|matches| - 1], matches[|matches| - 1];
      var before := OffersOf(init, id, excluded, prices);
      from := OffersOfAreMatches(r, id, init, excluded, prices);
      InitAndLast(matches);
      if m.ingredientId == id && Sellable(m, excluded, prices) {
        ToOfferIsTheMatch(m, prices);
        TakeNext(before, from, init, IsWantedFor(r, excluded, prices), IsOfferAt(prices), m,
                 ToOffer(m.product, m.gramsPerPiece, prices[m.product.id]));
        from := from + [|init|];
      } else {
        DropNext(before, from, init, IsWantedFor(r, excluded, prices), IsOfferAt(prices), m);
      }
    }
  }

  /** A requirement's offers are, in match order, those of every match wanted for it. */
  lemma OffersAreTheMatches(
    r: Requirement, matches: seq<Match>, excluded: set<StoreCode>, prices: Prices)
    returns (from: seq<nat>)
    ensures TakenFrom(
              WantedOffers(r, matches, excluded, prices), from, matches, IsWantedFor(r, excluded, prices),
              IsOfferAt(prices))
  {
    if r.ingredientId.Some? && r.ingredientId.value != "" {
      from := OffersOfAreMatches(r, r.ingredientId.value, matches, excluded, prices);
    } else {
      from := [];
    }
  }

  function Listed(byIngredient: map<string, seq<Offer>>, id: string): seq<Offer> {
    if id in byIngredient then byIngredient[id] else []
  }

  /** A requirement without an ingredient, or with an empty id, has no offers. */
  function OffersIn(byIngredient: map<string, seq<Offer>>, ingredientId: Option<string>): seq<Offer> {
    match ingredientId
    case Some(id) => if id == "" then [] else Listed(byIngredient, id)
    case None => []
  }

  method GroupByIngredient(matches: seq<Match>, excluded: set<StoreCode>, prices: Prices)
    returns (byIngredient: map<string, seq<Offer>>)
    ensures forall id :: Listed(byIngredient, id) == OffersOf(matches, id, excluded, prices)
  {
    byIngredient := map[];
    for i := 0 to |matches|
      invariant forall id :: Listed(byIngredient, id) == OffersOf(matches[..i], id, excluded, prices)
    {
      PrefixStep(matches, i);
      var m := matches[i];
      if Sellable(m, excluded, prices) {
        var offer := ToOffer(m.product, m.gramsPerPiece, prices[m.product.id]);
        byIngredient := byIngredient[m.ingredientId := Listed(byIngredient, m.ingredientId) + [offer]];
      }
    }
    FullPrefix(matches);
  }

  /** The book lists exactly what is wanted for each requirement, and no empty list or other key. */
  ghost predicate IsBook(book: OfferBook, reqs: seq<Requirement>, wanted: Requirement -> seq<Offer>) {
    && (forall i :: 0 <= i < |reqs| ==> OffersFor(book, reqs[i].key) == wanted(reqs[i]))
    && (forall k <- book :: exists i :: 0 <= i < |reqs| && reqs[i].key == k)
    && (forall k <- book :: book[k] != [])
  }

  lemma BookStep(book: OfferBook, reqs: seq<Requirement>, n: nat, wanted: Requirement -> seq<Offer>)
    requires DistinctKeys(reqs) && n < |reqs| && IsBook(book, reqs[..n], wanted)
    ensures var offers := wanted(reqs[n]);
      IsBook(if |offers| > 0 then book[reqs[n].key := offers] else book, reqs[..n + 1], wanted)
  {
    PrefixGrow(reqs, n);
    assert reqs[n].key !in book;
  }

  function Wanted(matches: seq<Match>, excluded: set<StoreCode>, prices: Prices): Requirement -> seq<Offer> {
    (r: Requirement) => WantedOffers(r, matches, excluded, prices)
  }

  method BuildOffers(reqs: seq<Requirement>, excluded: set<StoreCode>, matches: seq<Match>, prices: Prices)
    returns (offersByReq: OfferBook)
    requires DistinctKeys(reqs)
    ensures IsBook(offersByReq, reqs, Wanted(matches, excluded, prices))
  {
    var byIngredient := GroupByIngredient(matches, excluded, prices);
    ghost var wanted := Wanted(matches, excluded, prices);
    offersByReq := map[];
    for i := 0 to |reqs|
      invariant IsBook(offersByReq, reqs[..i], wanted)
    {
      BookStep(offersByReq, reqs, i, wanted);
      var offers := OffersIn(byIngredient, reqs[i].ingredientId);
      assert offers == wanted(reqs[i]);
      if |offers| > 0 {
        offersByReq := offersByReq[reqs[i].key := offers];
      }
    }
    FullPrefix(reqs);
  }

  // ---- what the optimizer may assume ----

  /** Matches of one store all carry that store's row. */
  ghost predicate OneRowPerStore(matches: seq<Match>, stores: StoreCode -> StoreTerms) {
    forall i :: 0 <= i < |matches| ==>
      var store := matches[i].product.store;
      StoreTerms(store.name, store.deliveryFeeCents, store.freeDeliveryMinCents) == stores(store.code)
  }

  lemma {:induction false} OffersOfFacts(
    matches: seq<Match>, id: string, excluded: set<StoreCode>, prices: Prices, stores: StoreCode -> StoreTerms)
    requires OneRowPerStore(matches, stores)
    ensures forall j :: 0 <= j < |OffersOf(matches, id, excluded, prices)| ==>
              var o := OffersOf(matches, id, excluded, prices)[j];
              TermsOf(o) == stores(o.storeCode) && o.storeCode !in excluded
  {
    if matches != [] {
      OffersOfFacts(matches[..|matches| - 1], id, excluded, prices, stores);
    }
  }

  /** Offers built from one row per store carry that store's terms, and none is from an excluded store. */
  lemma BuiltOffersFromStores(
    reqs: seq<Requirement>, offers: OfferBook, matches: seq<Match>, excluded: set<StoreCode>, prices: Prices,
    stores: StoreCode -> StoreTerms)
    requires OneRowPerStore(matches, stores)
    requires IsBook(offers, reqs, Wanted(matches, excluded, prices))
    ensures FromStores(offers, stores)
    ensures forall k, j :: k in offers && 0 <= j < |offers[k]| ==> offers[k][j].storeCode !in excluded
  {
    forall k, j | k in offers && 0 <= j < |offers[k]|
      ensures TermsOf(offers[k][j]) == stores(offers[k][j].storeCode)
      ensures offers[k][j].storeCode !in excluded
    {
      var i :| 0 <= i < |reqs| && reqs[i].key == k;
      assert OffersFor(offers, k) == offers[k];
      OffersOfFacts(matches, reqs[i].ingredientId.value, excluded, prices, stores);
    }
  }
}
