/** The CONVENIENCE strategy: few stores first, then the cheapest offers within them. */
module Convenience {
  import opened Options
  import opened OrderedMaps
  import opened BasketTypes
  import opened Picking
  import opened StoreTables
  import opened Ranking
  import opened GreedyCover
  import SetCover

  ghost predicate Sells(offers: OfferBook, key: Key, s: StoreCode) {
    exists j :: 0 <= j < |OffersFor(offers, key)| && OffersFor(offers, key)[j].storeCode == s
  }

  /** Store `s` sells every requirement that anyone sells. */
  ghost predicate StocksEverything(reqs: seq<Requirement>, offers: OfferBook, s: StoreCode) {
    forall i :: 0 <= i < |reqs| && OffersFor(offers, reqs[i].key) != [] ==> Sells(offers, reqs[i].key, s)
  }

  function KeysOf(reqs: seq<Requirement>): set<Key> {
    set i | 0 <= i < |reqs| :: reqs[i].key
  }

  function ConvenienceBasket(reqs: seq<Requirement>, offers: OfferBook, selected: set<StoreCode>): Basket {
    PickAll(Matched(reqs, offers), CheapestPick(offers, Some(selected)))
  }

  /** `selected` is the outcome of the store selection over `table`. */
  ghost predicate Selection(
    reqs: seq<Requirement>, offers: OfferBook, table: StoreTable, selected: seq<StoreCode>)
  {
    var matched := Matched(reqs, offers);
    && IsStoreTable(table, matched, offers)
    && ValidTable(table)
    && PickRun(table, KeysOf(matched), selected)
    && Remaining(table, KeysOf(matched), selected) == {}
  }

  /** A store's stock in the table is what it sells. */
  lemma StockIsSold(table: StoreTable, reqs: seq<Requirement>, offers: OfferBook, i: nat, s: StoreCode)
    requires DistinctKeys(reqs) && IsStoreTable(table, reqs, offers) && i < |reqs|
    ensures reqs[i].key in Stock(table)(s) <==> Sells(offers, reqs[i].key, s)
    ensures reqs[i].key in RowAt(table, s).entries <==> Sells(offers, reqs[i].key, s)
  {
    RowFacts(reqs, offers, s);
    assert RowAt(table, s) == Row(reqs, offers, s);
  }

  lemma EveryKeyIsStocked(table: StoreTable, reqs: seq<Requirement>, offers: OfferBook)
    requires DistinctKeys(reqs) && IsStoreTable(table, reqs, offers)
    requires forall i :: 0 <= i < |reqs| ==> OffersFor(offers, reqs[i].key) != []
    ensures forall k <- KeysOf(reqs) :: Stocked(table, k)
  {
    forall k | k in KeysOf(reqs)
      ensures Stocked(table, k)
    {
      var i :| 0 <= i < |reqs| && reqs[i].key == k;
      var s := OffersFor(offers, k)[0].storeCode;
      StockIsSold(table, reqs, offers, i, s);
      assert s in table.order;
    }
  }

  method AssignConvenience(reqs: seq<Requirement>, offers: OfferBook)
    returns (assignments: Basket, ghost table: StoreTable, ghost selected: seq<StoreCode>)
    requires DistinctKeys(reqs)
    ensures Selection(reqs, offers, table, selected)
    ensures assignments == ConvenienceBasket(reqs, offers, KeySet(selected))
  {
    var matched := Matched(reqs, offers);
    MatchedFacts(reqs, offers);
    var storeCoverage := CheapestPerStore(matched, offers);
    TableIsValid(storeCoverage, matched, offers);
    EveryKeyIsStocked(storeCoverage, matched, offers);
    var selectedStores := SelectStores(storeCoverage, KeysOf(matched));
    table, selected := storeCoverage, selectedStores;
    assignments := AssignCheapest(matched, offers, Some(set s | s in selectedStores));
  }

  lemma MatchedIndex(reqs: seq<Requirement>, offers: OfferBook, i: nat) returns (m: nat)
    requires i < |reqs| && OffersFor(offers, reqs[i].key) != []
    ensures m < |Matched(reqs, offers)| && Matched(reqs, offers)[m] == reqs[i]
  {
    MatchedFacts(reqs, offers);
    m :| 0 <= m < |Matched(reqs, offers)| && Matched(reqs, offers)[m] == reqs[i];
  }

  lemma UnmatchedKey(reqs: seq<Requirement>, offers: OfferBook, key: Key)
    requires OffersFor(offers, key) == []
    ensures !HasKey(Matched(reqs, offers), key)
  {
    MatchedFacts(reqs, offers);
  }

  lemma SoldBySelected(
    reqs: seq<Requirement>, offers: OfferBook, table: StoreTable, selected: seq<StoreCode>, m: nat)
    requires DistinctKeys(reqs) && Selection(reqs, offers, table, selected) && m < |Matched(reqs, offers)|
    ensures exists t :: 0 <= t < |selected| && Sells(offers, Matched(reqs, offers)[m].key, selected[t])
  {
    var matched := Matched(reqs, offers);
    var keys := KeysOf(matched);
    MatchedFacts(reqs, offers);
    SetCover.RemainingFacts(Stock(table), keys, selected);
    assert matched[m].key in keys - Remaining(table, keys, selected);
    var t :| 0 <= t < |selected| && matched[m].key in Stock(table)(selected[t]);
    StockIsSold(table, matched, offers, m, selected[t]);
  }

  lemma PickSoldHere(r: Requirement, offers: OfferBook, stores: set<StoreCode>, s: StoreCode)
    requires s in stores && Sells(offers, r.key, s)
    ensures CheapestPick(offers, Some(stores))(r).Some?
    ensures CheapestPick(offers, Some(stores))(r).value.offer.storeCode in stores
  {
    CheapestOfIsFirstLeast(r, OffersFor(offers, r.key), Some(stores));
  }

  /** Every requirement anyone sells is bought, at a selected store; nothing else is. */
  lemma ConvenienceCoversMatched(
    reqs: seq<Requirement>, offers: OfferBook, table: StoreTable, selected: seq<StoreCode>, i: nat)
    requires DistinctKeys(reqs) && Selection(reqs, offers, table, selected) && i < |reqs|
    ensures var b := ConvenienceBasket(reqs, offers, KeySet(selected));
      && b.Valid()
      && (reqs[i].key in b.entries <==> OffersFor(offers, reqs[i].key) != [])
      && (reqs[i].key in b.entries ==> b.entries[reqs[i].key].offer.storeCode in selected)
  {
    MatchedFacts(reqs, offers);
    PickAllFacts(Matched(reqs, offers), CheapestPick(offers, Some(KeySet(selected))));
    if OffersFor(offers, reqs[i].key) != [] {
      var m := MatchedIndex(reqs, offers, i);
      SoldBySelected(reqs, offers, table, selected, m);
      var t :| 0 <= t < |selected| && Sells(offers, reqs[i].key, selected[t]);
      PickSoldHere(reqs[i], offers, KeySet(selected), selected[t]);
    } else {
      UnmatchedKey(reqs, offers, reqs[i].key);
    }
  }

  /** The stores of `cover` together sell every requirement that anyone sells. */
  ghost predicate CoverSells(reqs: seq<Requirement>, offers: OfferBook, cover: seq<StoreCode>) {
    forall i :: 0 <= i < |reqs| && OffersFor(offers, reqs[i].key) != [] ==>
      exists c :: 0 <= c < |cover| && Sells(offers, reqs[i].key, cover[c])
  }

  lemma CoverSellsCovers(reqs: seq<Requirement>, offers: OfferBook, table: StoreTable, cover: seq<StoreCode>)
    requires DistinctKeys(reqs) && IsStoreTable(table, Matched(reqs, offers), offers)
    requires CoverSells(reqs, offers, cover)
    ensures SetCover.Covers(Stock(table), cover, KeysOf(Matched(reqs, offers)))
  {
    var matched := Matched(reqs, offers);
    MatchedFacts(reqs, offers);
    forall k | k in KeysOf(matched)
      ensures exists c :: 0 <= c < |cover| && k in Stock(table)(cover[c])
    {
      var m :| 0 <= m < |matched| && matched[m].key == k;
      var i :| 0 <= i < |reqs| && reqs[i] == matched[m];
      var c :| 0 <= c < |cover| && Sells(offers, reqs[i].key, cover[c]);
      StockIsSold(table, matched, offers, m, cover[c]);
    }
  }

  /**
   * The approximation guarantee: whatever stores together sell everything that is
   * sold at all, CONVENIENCE selects at most H(n) times as many.
   */
  lemma ConvenienceBound(
    reqs: seq<Requirement>, offers: OfferBook, table: StoreTable, selected: seq<StoreCode>, cover: seq<StoreCode>)
    requires DistinctKeys(reqs) && Selection(reqs, offers, table, selected)
    requires CoverSells(reqs, offers, cover)
    ensures |selected| as real <= SetCover.HarmonicBound(|cover|, |Matched(reqs, offers)|)
    ensures |selected| as real <= SetCover.Potential(Stock(table), cover, KeysOf(Matched(reqs, offers)))
  {
    var matched := Matched(reqs, offers);
    MatchedFacts(reqs, offers);
    PickRunIsGreedy(table, KeysOf(matched), selected);
    CoverSellsCovers(reqs, offers, table, cover);
    SetCover.GreedyWithinHarmonic(Stock(table), KeysOf(matched), selected, cover);
    KeyCount(matched);
  }

  lemma {:induction false} KeyCount(reqs: seq<Requirement>)
    requires DistinctKeys(reqs)
    ensures |KeysOf(reqs)| == |reqs|
  {
    if reqs != [] {
      var init := reqs[..|reqs| - 1];
      KeyCount(init);
      assert KeysOf(reqs) == KeysOf(init) + {reqs[|reqs| - 1].key};
    }
  }

  /** Within a set of keys that holds the whole row, the cost is the row's total. */
  lemma {:induction false} CostWithinAll(row: Basket, order: seq<Key>, wanted: set<Key>)
    requires forall i :: 0 <= i < |order| ==> order[i] in row.entries && order[i] in wanted
    ensures CostWithin(row.entries, order, wanted) == TotalCost(OMap(order, row.entries).Values())
  {
    if order != [] {
      var init := order[..|order| - 1];
      CostWithinAll(row, init, wanted);
      var whole := OMap(order, row.entries).Values();
      assert whole[..|order| - 1] == OMap(init, row.entries).Values();
    }
  }

  /** What everything costs at store `s`. */
  function StoreTotal(reqs: seq<Requirement>, offers: OfferBook, s: StoreCode): int {
    PickTotal(Matched(reqs, offers), CheapestPick(offers, Some({s})))
  }

  lemma FullRank(reqs: seq<Requirement>, offers: OfferBook, table: StoreTable, s: StoreCode)
    requires DistinctKeys(reqs) && IsStoreTable(table, Matched(reqs, offers), offers) && ValidTable(table)
    requires StocksEverything(reqs, offers, s)
    ensures var keys := KeysOf(Matched(reqs, offers));
      && keys <= Stock(table)(s)
      && Ranks(table, keys)(s) == Rank(|keys|, StoreTotal(reqs, offers, s))
  {
    var matched := Matched(reqs, offers);
    var keys := KeysOf(matched);
    MatchedFacts(reqs, offers);
    RowFacts(matched, offers, s);
    var row := RowAt(table, s);
    assert row == Row(matched, offers, s);
    forall k | k in keys
      ensures k in Stock(table)(s)
    {
      var m :| 0 <= m < |matched| && matched[m].key == k;
      assert matched[m] in reqs;
      StockIsSold(table, matched, offers, m, s);
    }
    assert row.entries.Keys == keys;
    assert Stock(table)(s) * keys == keys;
    CostWithinAll(row, row.order, keys);
    PickAllTotal(matched, CheapestPick(offers, Some({s})));
    assert OMap(row.order, row.entries) == row;
  }

  lemma OneStoreSelected(
    reqs: seq<Requirement>, offers: OfferBook, table: StoreTable, selected: seq<StoreCode>, full: StoreCode)
    requires DistinctKeys(reqs) && Selection(reqs, offers, table, selected)
    requires Matched(reqs, offers) != [] && StocksEverything(reqs, offers, full)
    ensures |selected| == 1 && StocksEverything(reqs, offers, selected[0])
  {
    var matched := Matched(reqs, offers);
    var keys := KeysOf(matched);
    MatchedFacts(reqs, offers);
    PickRunIsGreedy(table, keys, selected);
    FullRank(reqs, offers, table, full);
    assert matched[0].key in keys;
    SetCover.OneSuffices(Stock(table), keys, selected, full);
    forall i | 0 <= i < |reqs| && OffersFor(offers, reqs[i].key) != []
      ensures Sells(offers, reqs[i].key, selected[0])
    {
      var m := MatchedIndex(reqs, offers, i);
      assert matched[m].key in keys;
      StockIsSold(table, matched, offers, m, selected[0]);
    }
  }

  /** The only store taken is beaten by no other. */
  lemma OnlyTakenUnbeaten(table: StoreTable, keys: set<Key>, taken: seq<StoreCode>, t: StoreCode)
    requires ValidTable(table) && |taken| == 1 && PickRun(table, keys, taken) && t in table.entries
    ensures taken[0] in table.entries && !Beats(Ranks(table, keys)(t), Ranks(table, keys)(taken[0]))
  {
    var s := taken[0];
    assert taken[..0] == [];
    assert GreedyPick(table, [], keys, s);
    var rank := Ranks(table, keys);
    var i := TopOfIsFirst(table.order, KeySet([]), rank);
    var j :| 0 <= j < |table.order| && table.order[j] == t;
    assert !Beats(rank(table.order[j]), rank(table.order[i]));
  }

  lemma OneStoreBasket(reqs: seq<Requirement>, offers: OfferBook, selected: seq<StoreCode>)
    requires |selected| == 1
    ensures ConvenienceBasket(reqs, offers, KeySet(selected)) == Row(Matched(reqs, offers), offers, selected[0])
  {
    assert KeySet(selected) == {selected[0]};
  }

  /**
   * When some store stocks everything, CONVENIENCE buys at one store only: one
   * that stocks everything at the least total, each requirement at its cheapest there.
   */
  lemma ConvenienceAtOneStore(
    reqs: seq<Requirement>, offers: OfferBook, table: StoreTable, selected: seq<StoreCode>, full: StoreCode)
    requires DistinctKeys(reqs) && Selection(reqs, offers, table, selected)
    requires Matched(reqs, offers) != [] && StocksEverything(reqs, offers, full)
    ensures |selected| == 1
    ensures selected[0] in table.entries && StocksEverything(reqs, offers, selected[0])
    ensures StoreTotal(reqs, offers, selected[0]) <= StoreTotal(reqs, offers, full)
    ensures ConvenienceBasket(reqs, offers, KeySet(selected)) == Row(Matched(reqs, offers), offers, selected[0])
  {
    var matched := Matched(reqs, offers);
    var keys := KeysOf(matched);
    MatchedFacts(reqs, offers);
    OneStoreSelected(reqs, offers, table, selected, full);
    var s := selected[0];
    FullRank(reqs, offers, table, full);
    FullRank(reqs, offers, table, s);
    assert matched[0].key in Stock(table)(full);
    OnlyTakenUnbeaten(table, keys, selected, full);
    OneStoreBasket(reqs, offers, selected);
  }
}
