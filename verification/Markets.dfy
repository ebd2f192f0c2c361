/**
 * Shopping lists and shelves small enough to describe by hand, and the requests from
 * which the service prepares exactly them.
 */
module Markets {
  import opened Sequences
  import opened Options
  import opened OrderedMaps
  import opened BasketTypes
  import opened Units
  import opened Requirements
  import opened OfferBuilding
  import opened Preparation
  import opened Convenience

  /** The service's seven store codes. */
  const CODES: seq<StoreCode> :=
    [StoreCode("FAIRPRICE"), StoreCode("SHENG_SIONG"), StoreCode("GIANT"), StoreCode("COLD_STORAGE"),
     StoreCode("PRIME"), StoreCode("REDMART"), StoreCode("AMAZON_FRESH")]

  function Initial(s: StoreCode): char {
    if s.name == "" then ' ' else s.name[0]
  }

  /** Seven different codes. */
  lemma SevenCodes()
    ensures |CODES| == 7
    ensures forall i, j :: 0 <= i < j < 7 ==> CODES[i] != CODES[j] && Initial(CODES[i]) != Initial(CODES[j])
  {
  }

  /** What to buy, who sells it, and what a pack costs at each store, known by its initial. */
  datatype Market = Market(names: seq<string>, sellers: string -> seq<StoreCode>, price: char -> int)

  /** An ingredient to buy in no particular quantity; its name is its id. */
  function Item(name: string): Requirement {
    Requirement(Key(name), Some(name), name, None)
  }

  function List(names: seq<string>): seq<Requirement> {
    seq(|names|, i requires 0 <= i < |names| => Item(names[i]))
  }

  /** A store that delivers for free. */
  function Free(s: StoreCode): StoreRow {
    StoreRow(s, s.name, 0.0, 0, None)
  }

  function FreeDelivery(s: StoreCode): StoreTerms {
    StoreTerms(s.name, 0, None)
  }

  /** One pack of an ingredient at a store; initials keep product ids apart. */
  function ProductAt(s: StoreCode, name: string): Product {
    Product([Initial(s)] + name, 500.0, "g", 1, 1, Free(s))
  }

  function Pack(m: Market, s: StoreCode, name: string): Offer {
    Offer([Initial(s)] + name, s, s.name, Some(500.0), false, m.price(Initial(s)), 1, 0.0, 0, None)
  }

  function Shelf(m: Market, name: string): seq<Offer> {
    seq(|m.sellers(name)|, j requires 0 <= j < |m.sellers(name)| => Pack(m, m.sellers(name)[j], name))
  }

  function BookOf(m: Market): OfferBook {
    map k | k in KeysOf(List(m.names)) :: Shelf(m, k.text)
  }

  /** Different names, none empty, each sold somewhere. */
  ghost predicate Proper(m: Market) {
    && (forall i, j :: 0 <= i < j < |m.names| ==> m.names[i] != m.names[j])
    && (forall i :: 0 <= i < |m.names| ==> m.names[i] != "" && m.sellers(m.names[i]) != [])
  }

  // ---- what the optimizer sees ----

  lemma ListFacts(m: Market, i: nat)
    requires Proper(m) && i < |m.names|
    ensures DistinctKeys(List(m.names))
    ensures OffersFor(BookOf(m), Key(m.names[i])) == Shelf(m, m.names[i])
    ensures forall t :: Sells(BookOf(m), Key(m.names[i]), t) <==> t in m.sellers(m.names[i])
  {
    assert List(m.names)[i].key == Key(m.names[i]);
    var shelf := Shelf(m, m.names[i]);
    assert OffersFor(BookOf(m), Key(m.names[i])) == shelf;
    forall t | t in m.sellers(m.names[i])
      ensures Sells(BookOf(m), Key(m.names[i]), t)
    {
      var j :| 0 <= j < |shelf| && m.sellers(m.names[i])[j] == t;
      assert shelf[j].storeCode == t;
    }
  }

  lemma DistinctList(m: Market)
    requires Proper(m)
    ensures DistinctKeys(List(m.names))
  {
  }

  /** A pack costs its store's price. */
  lemma PackCost(m: Market, s: StoreCode, name: string)
    ensures MakeAssignment(Item(name), Pack(m, s, name)).costCents == m.price(Initial(s))
  {
  }

  lemma DeliversFree(m: Market)
    ensures FromStores(BookOf(m), FreeDelivery)
  {
  }

  // ---- what the service prepares ----

  function MatchAt(s: StoreCode, name: string): Match {
    Match(ProductAt(s, name), name, None)
  }

  function MatchesFor(m: Market, name: string): seq<Match> {
    seq(|m.sellers(name)|, j requires 0 <= j < |m.sellers(name)| => MatchAt(m.sellers(name)[j], name))
  }

  function MatchesOf(m: Market, names: seq<string>): seq<Match> {
    if names == [] then []
    else MatchesOf(m, names[..|names| - 1]) + MatchesFor(m, names[|names| - 1])
  }

  /** Every product matched has a price, by its store's initial. */
  function PricesOf(m: Market): Prices {
    map x <- MatchesOf(m, m.names) | true :: x.product.id := if x.product.id == "" then 0 else m.price(x.product.id[0])
  }

  /** The names asked for, with a search that knows each of them. */
  function RequestOf(m: Market): Request {
    Request(None, None, Some(m.names), 1.0, false, [], {}, MatchesOf(m, m.names), PricesOf(m))
  }

  function Known(): string -> Option<Found> {
    (name: string) => Some(Found(name, name))
  }

  function Plain(): TextOps {
    TextOps((s: string) => s, (s: string) => s)
  }

  lemma GramsAreGrams()
    ensures ToCanonical(500.0, "g", None, None) == Normalized(500.0, Grams)
  {
    assert "g" in MASS_TO_GRAMS && MASS_TO_GRAMS["g"] == 1.0;
  }

  lemma PackIsOffer(m: Market, s: StoreCode, name: string)
    ensures ToOffer(ProductAt(s, name), None, m.price(Initial(s))) == Pack(m, s, name)
  {
    GramsAreGrams();
  }

  /** What a sequence of matches yields, one at a time. */
  function Collect(ms: seq<Match>, f: Match -> Option<Offer>): seq<Offer> {
    if ms == [] then []
    else
      var before := Collect(ms[..|ms| - 1], f);
      match f(ms[|ms| - 1])
      case Some(o) => before + [o]
      case None => before
  }

  lemma {:induction false} CollectAppend(xs: seq<Match>, ys: seq<Match>, f: Match -> Option<Offer>)
    ensures Collect(xs + ys, f) == Collect(xs, f) + Collect(ys, f)
  {
    if ys == [] {
      assert xs + ys == xs;
    } else {
      var init, last := ys[..|ys| - 1], ys[|ys| - 1];
      CollectAppend(xs, init, f);
      assert xs + ys == (xs + init) + [last];
      AppendInit(xs + init, last);
    }
  }

  lemma {:induction false} CollectNone(ms: seq<Match>, f: Match -> Option<Offer>)
    requires forall i :: 0 <= i < |ms| ==> f(ms[i]).None?
    ensures Collect(ms, f) == []
  {
    if ms != [] {
      CollectNone(ms[..|ms| - 1], f);
    }
  }

  lemma {:induction false} CollectAll(ms: seq<Match>, f: Match -> Option<Offer>, offers: seq<Offer>)
    requires |ms| == |offers| && forall i :: 0 <= i < |ms| ==> f(ms[i]) == Some(offers[i])
    ensures Collect(ms, f) == offers
  {
    if ms != [] {
      CollectAll(ms[..|ms| - 1], f, offers[..|ms| - 1]);
    }
  }

  function OfferFrom(id: string, prices: Prices): Match -> Option<Offer> {
    (x: Match) =>
      if x.ingredientId == id && Sellable(x, {}, prices)
      then Some(ToOffer(x.product, x.gramsPerPiece, prices[x.product.id])) else None
  }

  lemma {:induction false} OffersAreCollected(ms: seq<Match>, id: string, prices: Prices)
    ensures OffersOf(ms, id, {}, prices) == Collect(ms, OfferFrom(id, prices))
  {
    if ms != [] {
      OffersAreCollected(ms[..|ms| - 1], id, prices);
    }
  }

  /** Prices that give every product of a store the store's price. */
  ghost predicate Priced(m: Market, ms: seq<Match>, prices: Prices) {
    forall i :: 0 <= i < |ms| ==>
      ms[i].product.id in prices && prices[ms[i].product.id] == m.price(Initial(ms[i].product.store.code))
  }

  /** One ingredient's matches yield its shelf, and nothing under another id. */
  lemma ShelfFrom(m: Market, name: string, id: string, prices: Prices)
    requires Priced(m, MatchesFor(m, name), prices)
    ensures Collect(MatchesFor(m, name), OfferFrom(id, prices)) == if id == name then Shelf(m, name) else []
  {
    var ms := MatchesFor(m, name);
    if id == name {
      forall j | 0 <= j < |ms|
        ensures OfferFrom(id, prices)(ms[j]) == Some(Shelf(m, name)[j])
      {
        PackIsOffer(m, m.sellers(name)[j], name);
      }
      CollectAll(ms, OfferFrom(id, prices), Shelf(m, name));
    } else {
      CollectNone(ms, OfferFrom(id, prices));
    }
  }

  lemma {:induction false} ShelvesOf(m: Market, names: seq<string>, id: string, prices: Prices)
    requires forall i, j :: 0 <= i < j < |names| ==> names[i] != names[j]
    requires Priced(m, MatchesOf(m, names), prices)
    ensures Collect(MatchesOf(m, names), OfferFrom(id, prices)) == if id in names then Shelf(m, id) else []
  {
    if names != [] {
      var init, last := names[..|names| - 1], names[|names| - 1];
      PricedParts(m, MatchesOf(m, init), MatchesFor(m, last), prices);
      ShelvesOf(m, init, id, prices);
      CollectAppend(MatchesOf(m, init), MatchesFor(m, last), OfferFrom(id, prices));
      ShelfFrom(m, last, id, prices);
      assert id in names <==> id in init || id == last;
    }
  }

  lemma PricedParts(m: Market, xs: seq<Match>, ys: seq<Match>, prices: Prices)
    requires Priced(m, xs + ys, prices)
    ensures Priced(m, xs, prices) && Priced(m, ys, prices)
  {
    assert forall i :: 0 <= i < |xs| ==> xs[i] == (xs + ys)[i];
    assert forall i :: 0 <= i < |ys| ==> ys[i] == (xs + ys)[|xs| + i];
  }

  lemma {:induction false} ProductIds(m: Market, names: seq<string>)
    ensures forall x <- MatchesOf(m, names) :: x.product.id != "" && x.product.id[0] == Initial(x.product.store.code)
  {
    if names != [] {
      ProductIds(m, names[..|names| - 1]);
    }
  }

  lemma AllPriced(m: Market)
    ensures Priced(m, MatchesOf(m, m.names), PricesOf(m))
  {
    ProductIds(m, m.names);
    var ms := MatchesOf(m, m.names);
    forall i | 0 <= i < |ms|
      ensures ms[i].product.id in PricesOf(m)
      ensures PricesOf(m)[ms[i].product.id] == m.price(Initial(ms[i].product.store.code))
    {
      assert ms[i] in ms;
    }
  }

  /** The book lists the names, in their order, as items. */
  ghost predicate Gathers(book: Book, names: seq<string>) {
    && Consistent(book) && |book.order| == |names|
    && forall i :: 0 <= i < |names| ==>
         book.order[i] == Key(names[i]) && Key(names[i]) in book.entries
         && book.entries[Key(names[i])] == Item(names[i])
  }

  lemma OneMoreName(book: Book, names: seq<string>, name: string)
    requires Gathers(book, names) && name !in names && name != ""
    ensures Gathers(MergeName(book, name, Known(), Plain()), names + [name])
  {
    var k := Key(name);
    SetKeepsValid(book, k, Item(name));
    assert MergeName(book, name, Known(), Plain()) == book.Set(k, Item(name));
  }

  lemma {:induction false} NamesGathered(names: seq<string>)
    requires forall i, j :: 0 <= i < j < |names| ==> names[i] != names[j]
    requires forall i :: 0 <= i < |names| ==> names[i] != ""
    ensures Gathers(MergeNames(Empty(), names, Known(), Plain()), names)
  {
    if names != [] {
      var init, last := names[..|names| - 1], names[|names| - 1];
      NamesGathered(init);
      OneMoreName(MergeNames(Empty(), init, Known(), Plain()), init, last);
      assert init + [last] == names;
    }
  }

  /** From this request the service prepares exactly this list and this book. */
  lemma MarketIsPrepared(m: Market, res: Result<Prepared>)
    requires Proper(m) && m.names != []
    requires IsPrepared(RequestOf(m), Known(), Plain(), res)
    ensures res == Ok(Prepared(List(m.names), BookOf(m)))
  {
    NamesGathered(m.names);
    Answered(m, res);
    assert res.value.requirements == List(m.names);
    SameBook(m, res.value.offersByReq);
  }

  lemma Answered(m: Market, res: Result<Prepared>)
    requires m.names != [] && IsPrepared(RequestOf(m), Known(), Plain(), res)
    ensures res.Ok?
  {
    assert res != Err(NothingAsked) && res != Err(RecipeNotFound);
    if res.Err? {
      match res.error
      case NothingAsked =>
      case RecipeNotFound =>
    }
  }

  lemma ShelfIsWanted(m: Market, i: nat)
    requires Proper(m) && i < |m.names|
    ensures Wanted(MatchesOf(m, m.names), {}, PricesOf(m))(List(m.names)[i]) == Shelf(m, m.names[i]) != []
  {
    AllPriced(m);
    ShelvesOf(m, m.names, m.names[i], PricesOf(m));
    OffersAreCollected(MatchesOf(m, m.names), m.names[i], PricesOf(m));
  }

  lemma SameBook(m: Market, book: OfferBook)
    requires Proper(m) && IsBook(book, List(m.names), Wanted(MatchesOf(m, m.names), {}, PricesOf(m)))
    ensures book == BookOf(m)
  {
    forall i | 0 <= i < |m.names|
      ensures OffersFor(book, Key(m.names[i])) == Shelf(m, m.names[i]) != []
    {
      ShelfIsWanted(m, i);
      assert List(m.names)[i].key == Key(m.names[i]);
    }
    SameEntries(m, book);
  }

  lemma SameEntries(m: Market, book: OfferBook)
    requires forall i :: 0 <= i < |m.names| ==> OffersFor(book, Key(m.names[i])) == Shelf(m, m.names[i]) != []
    requires forall k <- book :: exists i :: 0 <= i < |List(m.names)| && List(m.names)[i].key == k
    ensures book == BookOf(m)
  {
    forall k
      ensures k in book <==> k in BookOf(m)
      ensures k in book ==> book[k] == BookOf(m)[k]
    {
      if k in book {
        var i :| 0 <= i < |List(m.names)| && List(m.names)[i].key == k;
        assert k == Key(m.names[i]);
      }
      if k in BookOf(m) {
        var i :| 0 <= i < |List(m.names)| && List(m.names)[i].key == k;
        assert k == Key(m.names[i]);
      }
    }
  }
}
