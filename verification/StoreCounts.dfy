/** How many stores CONVENIENCE and DELIVERY end up using, told from the offers alone. */
module StoreCounts {
  import opened Sequences
  import opened Options
  import opened OrderedMaps
  import opened BasketTypes
  import opened Picking
  import opened StoreTables
  import opened Grouping
  import opened GreedyCover
  import opened Convenience
  import opened Delivery
  import opened DeliveryOptimality
  import opened Results
  import opened Optimizer
  import opened Guarantees
  import SetCover

  // ---- counting requirements ----

  /** How many of the requirements have a key of the given kind. */
  ghost function CountWhere(reqs: seq<Requirement>, p: Key -> bool): nat {
    if reqs == [] then 0
    else CountWhere(reqs[..|reqs| - 1], p) + if p(reqs[|reqs| - 1].key) then 1 else 0
  }

  ghost function KeysWhere(reqs: seq<Requirement>, p: Key -> bool): set<Key> {
    set i | 0 <= i < |reqs| && p(reqs[i].key) :: reqs[i].key
  }

  lemma {:induction false} CountIsKeys(reqs: seq<Requirement>, p: Key -> bool)
    requires DistinctKeys(reqs)
    ensures |KeysWhere(reqs, p)| == CountWhere(reqs, p)
  {
    if reqs == [] {
      assert KeysWhere(reqs, p) == {};
    } else {
      var init, k := reqs[..|reqs| - 1], reqs[|reqs| - 1].key;
      CountIsKeys(init, p);
      assert k !in KeysWhere(init, p);
      assert KeysWhere(reqs, p) == KeysWhere(init, p) + if p(k) then {k} else {};
    }
  }

  lemma {:induction false} CountMatched(reqs: seq<Requirement>, offers: OfferBook, p: Key -> bool)
    requires forall k :: p(k) ==> OffersFor(offers, k) != []
    ensures CountWhere(Matched(reqs, offers), p) == CountWhere(reqs, p)
  {
    if reqs != [] {
      var init := reqs[..|reqs| - 1];
      CountMatched(init, offers, p);
      assert Matched(reqs, offers) != Matched(init, offers) ==>
               Matched(reqs, offers)[..|Matched(init, offers)|] == Matched(init, offers);
    }
  }

  ghost function SoldAt(offers: OfferBook, s: StoreCode): Key -> bool {
    (k: Key) => Sells(offers, k, s)
  }

  /** How many of the requirements store `s` sells. */
  ghost function SoldCount(reqs: seq<Requirement>, offers: OfferBook, s: StoreCode): nat {
    CountWhere(reqs, SoldAt(offers, s))
  }

  lemma {:induction false} RowLength(reqs: seq<Requirement>, offers: OfferBook, s: StoreCode)
    requires DistinctKeys(reqs)
    ensures |Row(reqs, offers, s).order| == SoldCount(reqs, offers, s)
  {
    if reqs != [] {
      var init, r := reqs[..|reqs| - 1], reqs[|reqs| - 1];
      RowLength(init, offers, s);
      SoldAtStore(r, offers, s);
      PickAllFacts(init, CheapestPick(offers, Some({s})));
      assert r.key !in Row(init, offers, s).entries;
    }
  }

  lemma WholeRow(row: Basket, keys: set<Key>)
    requires row.Valid() && row.entries.Keys <= keys
    ensures |row.entries.Keys * keys| == |row.order|
  {
    DistinctCardinality(row.order);
    assert row.entries.Keys * keys == set k | k in row.order;
  }

  lemma RowKeys(reqs: seq<Requirement>, offers: OfferBook, s: StoreCode)
    requires DistinctKeys(reqs)
    ensures Row(reqs, offers, s).Valid() && Row(reqs, offers, s).entries.Keys <= KeysOf(reqs)
  {
    RowFacts(reqs, offers, s);
  }

  /** A store's gain before anything is covered is the number of requirements it sells. */
  lemma GainIsSoldCount(reqs: seq<Requirement>, offers: OfferBook, table: StoreTable, s: StoreCode)
    requires DistinctKeys(reqs) && IsStoreTable(table, Matched(reqs, offers), offers)
    ensures SetCover.Gain(Stock(table), s, KeysOf(Matched(reqs, offers))) == SoldCount(reqs, offers, s)
    ensures |RowAt(table, s).order| == SoldCount(reqs, offers, s)
  {
    var matched := Matched(reqs, offers);
    MatchedFacts(reqs, offers);
    RowKeys(matched, offers, s);
    RowLength(matched, offers, s);
    CountMatched(reqs, offers, SoldAt(offers, s));
    assert RowAt(table, s) == Row(matched, offers, s);
    WholeRow(RowAt(table, s), KeysOf(matched));
  }

  // ---- the stores a basket uses ----

  lemma UsesStore(b: Basket, k: Key)
    requires b.Valid() && k in b.entries
    ensures b.entries[k].offer.storeCode in StoresOf(b.Values())
  {
    StoresOfFacts(b.Values());
    var i :| 0 <= i < |b.order| && b.order[i] == k;
    assert b.Values()[i] == b.entries[k];
  }

  lemma StoreUsed(b: Basket, s: StoreCode) returns (k: Key)
    requires b.Valid() && s in StoresOf(b.Values())
    ensures k in b.entries && b.entries[k].offer.storeCode == s
  {
    StoresOfFacts(b.Values());
    var i :| 0 <= i < |b.Values()| && b.Values()[i].offer.storeCode == s;
    k := b.order[i];
  }

  /** Whatever a basket buys, the store it buys it at sells it. */
  lemma BoughtWhereSold(reqs: seq<Requirement>, offers: OfferBook, b: Basket, k: Key)
    requires BoughtForKey(reqs, offers, b, k)
    ensures Sells(offers, k, b.entries[k].offer.storeCode)
  {
    var i, j :| 0 <= i < |reqs| && reqs[i].key == k && BoughtAt(reqs[i], OffersFor(offers, k), j, b.entries[k]);
  }

  /** Every store that sells any of the requirements is listed. */
  ghost predicate AllSellers(reqs: seq<Requirement>, offers: OfferBook, listed: seq<StoreCode>) {
    forall i, s :: 0 <= i < |reqs| && Sells(offers, reqs[i].key, s) ==> s in listed
  }

  lemma StoresAreSellers(reqs: seq<Requirement>, offers: OfferBook, b: Basket, listed: seq<StoreCode>)
    requires Buys(reqs, offers, b) && AllSellers(reqs, offers, listed)
    ensures |StoresOf(b.Values())| <= |listed|
  {
    StoresOfFacts(b.Values());
    forall s | s in StoresOf(b.Values())
      ensures s in listed
    {
      var k := StoreUsed(b, s);
      assert BoughtForKey(reqs, offers, b, k);
      BoughtWhereSold(reqs, offers, b, k);
      var i :| 0 <= i < |reqs| && reqs[i].key == k;
    }
    DistinctWithin(StoresOf(b.Values()), listed);
  }

  // ---- when CONVENIENCE is minimal ----

  /**
   * When no store of a covering set sells more than `d` of the requirements, CONVENIENCE
   * uses at most H(d) times as many stores; for d = 1 no more than any such set.
   */
  lemma StoreCountBySize(
    reqs: seq<Requirement>, offers: OfferBook, b: Basket, baseline: Option<real>, res: OptimizationResult,
    cover: seq<StoreCode>, d: nat)
    requires DistinctKeys(reqs) && ResultOf(CONVENIENCE, reqs, offers, b, baseline, res)
    requires CoverSells(reqs, offers, cover)
    requires forall i :: 0 <= i < |cover| ==> SoldCount(reqs, offers, cover[i]) <= d
    ensures res.storeCount as real <= SetCover.HarmonicBound(|cover|, d)
    ensures d <= 1 ==> res.storeCount <= |cover|
  {
    ResultBalances(CONVENIENCE, reqs, offers, b, baseline, res);
    var table, selected := ConvenienceRun(reqs, offers, b, baseline, res);
    ConvenienceBound(reqs, offers, table, selected, cover);
    StoresAmongSelected(reqs, offers, table, selected);
    forall i | 0 <= i < |cover|
      ensures SetCover.Gain(Stock(table), cover[i], KeysOf(Matched(reqs, offers))) <= d
    {
      GainIsSoldCount(reqs, offers, table, cover[i]);
    }
    SetCover.PotentialBySize(Stock(table), cover, KeysOf(Matched(reqs, offers)), d);
    if d <= 1 {
      HarmonicOfOne(|cover|, d);
    }
  }

  lemma HarmonicOfOne(k: nat, d: nat)
    requires d <= 1
    ensures SetCover.HarmonicBound(k, d) <= k as real
  {
    assert SetCover.H(0) == 0.0;
    assert SetCover.H(d) <= 1.0;
  }

  /** Only store `s` sells `r`. */
  ghost predicate OnlySeller(offers: OfferBook, r: Requirement, s: StoreCode) {
    Sells(offers, r.key, s) && forall t :: Sells(offers, r.key, t) ==> t == s
  }

  ghost predicate Indispensable(reqs: seq<Requirement>, offers: OfferBook, s: StoreCode) {
    exists i :: 0 <= i < |reqs| && OnlySeller(offers, reqs[i], s)
  }

  lemma IndispensableIsCovered(reqs: seq<Requirement>, offers: OfferBook, cover: seq<StoreCode>, s: StoreCode)
    requires CoverSells(reqs, offers, cover) && Indispensable(reqs, offers, s)
    ensures s in cover
  {
    var i :| 0 <= i < |reqs| && OnlySeller(offers, reqs[i], s);
    assert OffersFor(offers, reqs[i].key) != [];
    var c :| 0 <= c < |cover| && Sells(offers, reqs[i].key, cover[c]);
  }

  /** When every store that sells anything is the only seller of something, no covering set is smaller. */
  lemma MinimalWhenAllIndispensable(
    reqs: seq<Requirement>, offers: OfferBook, b: Basket, baseline: Option<real>, res: OptimizationResult,
    cover: seq<StoreCode>)
    requires DistinctKeys(reqs) && ResultOf(CONVENIENCE, reqs, offers, b, baseline, res)
    requires CoverSells(reqs, offers, cover)
    requires forall i, s :: 0 <= i < |reqs| && Sells(offers, reqs[i].key, s) ==> Indispensable(reqs, offers, s)
    ensures res.storeCount <= |cover|
  {
    ResultBalances(CONVENIENCE, reqs, offers, b, baseline, res);
    OutcomeBuys(CONVENIENCE, reqs, offers, b);
    forall i, s | 0 <= i < |reqs| && Sells(offers, reqs[i].key, s)
      ensures s in cover
    {
      IndispensableIsCovered(reqs, offers, cover, s);
    }
    StoresAreSellers(reqs, offers, b, cover);
  }

  // ---- when CONVENIENCE is not ----

  ghost predicate SoldByAny(offers: OfferBook, k: Key, taken: seq<StoreCode>) {
    exists t <- taken :: Sells(offers, k, t)
  }

  ghost function NewAt(offers: OfferBook, taken: seq<StoreCode>, s: StoreCode): Key -> bool {
    (k: Key) => Sells(offers, k, s) && !SoldByAny(offers, k, taken)
  }

  /** How many of the requirements store `s` sells that none of the taken stores does. */
  ghost function SoldBeyond(reqs: seq<Requirement>, offers: OfferBook, taken: seq<StoreCode>, s: StoreCode): nat {
    CountWhere(reqs, NewAt(offers, taken, s))
  }

  /** What is left is what none of the taken stores supplies. */
  lemma RemainingKey(table: StoreTable, keys: set<Key>, taken: seq<StoreCode>, k: Key)
    ensures k in SetCover.Remaining(Stock(table), keys, taken) <==>
              k in keys && forall t <- taken :: k !in Stock(table)(t)
  {
    var left := SetCover.Remaining(Stock(table), keys, taken);
    SetCover.RemainingFacts(Stock(table), keys, taken);
    forall t | t in taken && k in left
      ensures k !in Stock(table)(t)
    {
      assert SetCover.Gain(Stock(table), t, left) == 0;
      assert k in Stock(table)(t) ==> k in Stock(table)(t) * left;
    }
    if k in keys - left {
      var i :| 0 <= i < |taken| && k in Stock(table)(taken[i]);
      assert taken[i] in taken;
    }
  }

  lemma GainKeys(reqs: seq<Requirement>, offers: OfferBook, table: StoreTable, taken: seq<StoreCode>, s: StoreCode)
    requires DistinctKeys(reqs) && IsStoreTable(table, reqs, offers)
    ensures Stock(table)(s) * SetCover.Remaining(Stock(table), KeysOf(reqs), taken)
            == KeysWhere(reqs, NewAt(offers, taken, s))
  {
    forall k
      ensures k in Stock(table)(s) * SetCover.Remaining(Stock(table), KeysOf(reqs), taken) <==>
                k in KeysWhere(reqs, NewAt(offers, taken, s))
    {
      RemainingKey(table, KeysOf(reqs), taken, k);
      if k in KeysOf(reqs) {
        var i :| 0 <= i < |reqs| && reqs[i].key == k;
        StockIsSold(table, reqs, offers, i, s);
        forall t {
          StockIsSold(table, reqs, offers, i, t);
        }
      }
    }
  }

  /** A store's gain once some stores are taken is the number of requirements it sells beyond theirs. */
  lemma GainBeyond(reqs: seq<Requirement>, offers: OfferBook, table: StoreTable, taken: seq<StoreCode>, s: StoreCode)
    requires DistinctKeys(reqs) && IsStoreTable(table, Matched(reqs, offers), offers)
    ensures SetCover.Gain(Stock(table), s, SetCover.Remaining(Stock(table), KeysOf(Matched(reqs, offers)), taken))
            == SoldBeyond(reqs, offers, taken, s)
  {
    var matched := Matched(reqs, offers);
    MatchedFacts(reqs, offers);
    GainKeys(matched, offers, table, taken, s);
    CountIsKeys(matched, NewAt(offers, taken, s));
    CountMatched(reqs, offers, NewAt(offers, taken, s));
  }

  /** Store `s` sells more than any other store beyond what the taken stores sell. */
  ghost predicate SellsMostBeyond(reqs: seq<Requirement>, offers: OfferBook, taken: seq<StoreCode>, s: StoreCode) {
    forall t :: t != s ==> SoldBeyond(reqs, offers, taken, t) < SoldBeyond(reqs, offers, taken, s)
  }

  /** Each lure sells the most of what the lures before it do not sell. */
  ghost predicate LureInTurn(reqs: seq<Requirement>, offers: OfferBook, lures: seq<StoreCode>) {
    forall k :: 0 <= k < |lures| ==> SellsMostBeyond(reqs, offers, lures[..k], lures[k])
  }

  /** Some offer of `s` for `r` is cheaper than every offer elsewhere. */
  ghost predicate Undercuts(offers: OfferBook, r: Requirement, s: StoreCode) {
    var os := OffersFor(offers, r.key);
    exists j :: 0 <= j < |os| && os[j].storeCode == s
      && forall i :: 0 <= i < |os| && os[i].storeCode != s ==>
           MakeAssignment(r, os[j]).costCents < MakeAssignment(r, os[i]).costCents
  }

  ghost predicate UndercutsSomewhere(reqs: seq<Requirement>, offers: OfferBook, s: StoreCode) {
    exists i :: 0 <= i < |reqs| && Undercuts(offers, reqs[i], s)
  }

  lemma SellsSomething(reqs: seq<Requirement>, offers: OfferBook, taken: seq<StoreCode>, s: StoreCode)
    requires SellsMostBeyond(reqs, offers, taken, s)
    ensures SoldBeyond(reqs, offers, taken, s) > 0
  {
    var other := StoreCode(s.name + "'");
    assert |other.name| != |s.name|;
    assert SoldBeyond(reqs, offers, taken, other) < SoldBeyond(reqs, offers, taken, s);
  }

  /** Nothing is left to sell beyond the whole selection. */
  lemma NothingBeyond(
    reqs: seq<Requirement>, offers: OfferBook, table: StoreTable, selected: seq<StoreCode>, s: StoreCode)
    requires DistinctKeys(reqs) && Selection(reqs, offers, table, selected)
    ensures SoldBeyond(reqs, offers, selected, s) == 0
  {
    GainBeyond(reqs, offers, table, selected, s);
  }

  /** A store that sells the most of what is left is taken next. */
  lemma NextSelected(
    reqs: seq<Requirement>, offers: OfferBook, table: StoreTable, selected: seq<StoreCode>, k: nat, s: StoreCode)
    requires DistinctKeys(reqs) && Selection(reqs, offers, table, selected)
    requires k <= |selected| && SellsMostBeyond(reqs, offers, selected[..k], s)
    ensures k < |selected| && selected[k] == s
  {
    SellsSomething(reqs, offers, selected[..k], s);
    NothingBeyond(reqs, offers, table, selected, s);
    FullPrefix(selected);
    if k < |selected| {
      BestAt(reqs, offers, table, selected, k, s);
    }
  }

  lemma BestAt(
    reqs: seq<Requirement>, offers: OfferBook, table: StoreTable, selected: seq<StoreCode>, k: nat, s: StoreCode)
    requires DistinctKeys(reqs) && Selection(reqs, offers, table, selected) && k < |selected|
    ensures SoldBeyond(reqs, offers, selected[..k], s) <= SoldBeyond(reqs, offers, selected[..k], selected[k])
  {
    var keys := KeysOf(Matched(reqs, offers));
    PickRunIsGreedy(table, keys, selected);
    SetCover.ChoiceAt(Stock(table), keys, selected, k);
    GainBeyond(reqs, offers, table, selected[..k], s);
    GainBeyond(reqs, offers, table, selected[..k], selected[k]);
  }

  lemma OneMoreEqual(x: seq<StoreCode>, y: seq<StoreCode>, k: nat)
    requires k < |x| && k < |y| && x[..k] == y[..k] && x[k] == y[k]
    ensures x[..k + 1] == y[..k + 1]
  {
    assert x[..k + 1] == x[..k] + [x[k]];
    assert y[..k + 1] == y[..k] + [y[k]];
  }

  lemma OneMoreLure(
    reqs: seq<Requirement>, offers: OfferBook, table: StoreTable, selected: seq<StoreCode>, lures: seq<StoreCode>,
    k: nat)
    requires DistinctKeys(reqs) && Selection(reqs, offers, table, selected)
    requires k < |lures| && SellsMostBeyond(reqs, offers, lures[..k], lures[k])
    requires k <= |selected| && selected[..k] == lures[..k]
    ensures k < |selected| && selected[..k + 1] == lures[..k + 1]
  {
    NextSelected(reqs, offers, table, selected, k, lures[k]);
    OneMoreEqual(selected, lures, k);
  }

  ghost predicate AgreeUpTo(x: seq<StoreCode>, y: seq<StoreCode>, k: nat) {
    k <= |x| && k <= |y| && x[..k] == y[..k]
  }

  lemma {:induction false} AgreeThroughout(x: seq<StoreCode>, y: seq<StoreCode>, k: nat)
    requires k <= |y| && forall j: nat :: j < |y| && AgreeUpTo(x, y, j) ==> AgreeUpTo(x, y, j + 1)
    ensures AgreeUpTo(x, y, k)
  {
    if k > 0 {
      AgreeThroughout(x, y, k - 1);
    }
  }

  /** The lures are the first stores selected. */
  lemma LuresAreSelected(
    reqs: seq<Requirement>, offers: OfferBook, table: StoreTable, selected: seq<StoreCode>, lures: seq<StoreCode>)
    requires DistinctKeys(reqs) && Selection(reqs, offers, table, selected) && LureInTurn(reqs, offers, lures)
    ensures AgreeUpTo(selected, lures, |lures|)
  {
    forall k: nat | k < |lures| && AgreeUpTo(selected, lures, k)
      ensures AgreeUpTo(selected, lures, k + 1)
    {
      OneMoreLure(reqs, offers, table, selected, lures, k);
    }
    AgreeThroughout(selected, lures, |lures|);
  }

  lemma UndercutterIsPicked(offers: OfferBook, r: Requirement, stores: set<StoreCode>, s: StoreCode)
    requires s in stores && Undercuts(offers, r, s)
    ensures var a := CheapestPick(offers, Some(stores))(r); a.Some? && a.value.offer.storeCode == s
  {
    CheapestOfIsFirstLeast(r, OffersFor(offers, r.key), Some(stores));
  }

  /** An undercutting store among the selected ones is bought from. */
  lemma UndercutterIsUsed(
    reqs: seq<Requirement>, offers: OfferBook, table: StoreTable, selected: seq<StoreCode>, i: nat, s: StoreCode)
    requires DistinctKeys(reqs) && Selection(reqs, offers, table, selected) && i < |reqs|
    requires s in selected && Undercuts(offers, reqs[i], s)
    ensures var b := ConvenienceBasket(reqs, offers, KeySet(selected));
      reqs[i].key in b.entries && b.entries[reqs[i].key].offer.storeCode == s
  {
    var m := MatchedIndex(reqs, offers, i);
    MatchedFacts(reqs, offers);
    PickAllFacts(Matched(reqs, offers), CheapestPick(offers, Some(KeySet(selected))));
    UndercutterIsPicked(offers, reqs[i], KeySet(selected), s);
  }

  lemma OnlySellerIsUsed(reqs: seq<Requirement>, offers: OfferBook, b: Basket, s: StoreCode)
    requires DistinctKeys(reqs) && Outcome(CONVENIENCE, reqs, offers, b) && Indispensable(reqs, offers, s)
    ensures b.Valid() && s in StoresOf(b.Values())
  {
    var i :| 0 <= i < |reqs| && OnlySeller(offers, reqs[i], s);
    OutcomeBuys(CONVENIENCE, reqs, offers, b);
    CoversExactlyOffered(CONVENIENCE, reqs, offers, b, i);
    assert BoughtForKey(reqs, offers, b, reqs[i].key);
    BoughtWhereSold(reqs, offers, b, reqs[i].key);
    UsesStore(b, reqs[i].key);
  }

  lemma LureIsUsed(reqs: seq<Requirement>, offers: OfferBook, b: Basket, lures: seq<StoreCode>, s: StoreCode)
    requires DistinctKeys(reqs) && Outcome(CONVENIENCE, reqs, offers, b)
    requires LureInTurn(reqs, offers, lures) && s in lures && UndercutsSomewhere(reqs, offers, s)
    ensures b.Valid() && s in StoresOf(b.Values())
  {
    OutcomeBuys(CONVENIENCE, reqs, offers, b);
    var i :| 0 <= i < |reqs| && Undercuts(offers, reqs[i], s);
    var table, selected :|
      Selection(reqs, offers, table, selected) && b == ConvenienceBasket(reqs, offers, KeySet(selected));
    LuresAreSelected(reqs, offers, table, selected, lures);
    FullPrefix(lures);
    assert s in selected[..|lures|];
    UndercutterIsUsed(reqs, offers, table, selected, i, s);
    UsesStore(b, reqs[i].key);
  }

  /** Stores no cover can do without, and lures that are taken in turn and undercut somewhere, all different. */
  ghost predicate Lures(
    reqs: seq<Requirement>, offers: OfferBook, needed: seq<StoreCode>, lures: seq<StoreCode>)
  {
    && LureInTurn(reqs, offers, lures)
    && (forall s <- lures :: UndercutsSomewhere(reqs, offers, s))
    && (forall s <- needed :: Indispensable(reqs, offers, s))
    && (forall x, y :: 0 <= x < y < |needed + lures| ==> (needed + lures)[x] != (needed + lures)[y])
  }

  /**
   * How greed loses: every lure is used on top of every store that cannot be done without.
   * Covering sets made of the needed stores alone are smaller by the number of lures.
   */
  lemma LuresAreExtra(
    reqs: seq<Requirement>, offers: OfferBook, b: Basket, baseline: Option<real>, res: OptimizationResult,
    needed: seq<StoreCode>, lures: seq<StoreCode>)
    requires DistinctKeys(reqs) && ResultOf(CONVENIENCE, reqs, offers, b, baseline, res)
    requires Lures(reqs, offers, needed, lures)
    ensures res.storeCount >= |needed| + |lures|
    ensures AllSellers(reqs, offers, needed + lures) ==> res.storeCount == |needed| + |lures|
  {
    ResultBalances(CONVENIENCE, reqs, offers, b, baseline, res);
    OutcomeBuys(CONVENIENCE, reqs, offers, b);
    AllAreUsed(reqs, offers, b, needed, lures);
    DistinctWithin(needed + lures, StoresOf(b.Values()));
    if AllSellers(reqs, offers, needed + lures) {
      StoresAreSellers(reqs, offers, b, needed + lures);
    }
  }

  lemma AllAreUsed(
    reqs: seq<Requirement>, offers: OfferBook, b: Basket, needed: seq<StoreCode>, lures: seq<StoreCode>)
    requires DistinctKeys(reqs) && Outcome(CONVENIENCE, reqs, offers, b) && b.Valid()
    requires Lures(reqs, offers, needed, lures)
    ensures forall s <- needed + lures :: s in StoresOf(b.Values())
  {
    forall s | s in needed + lures
      ensures s in StoresOf(b.Values())
    {
      if s in needed {
        OnlySellerIsUsed(reqs, offers, b, s);
      } else {
        LureIsUsed(reqs, offers, b, lures, s);
      }
    }
  }

  // ---- DELIVERY and its two stores ----

  /** Some store sells at least 60% of what is sold at all. */
  ghost predicate SomeStoreReachesBar(reqs: seq<Requirement>, offers: OfferBook) {
    exists s :: SoldCount(reqs, offers, s) >= CoverageBar(|Matched(reqs, offers)|)
  }

  lemma BarIsCoverage(reqs: seq<Requirement>, offers: OfferBook, table: StoreTable)
    requires DistinctKeys(reqs) && IsStoreTable(table, Matched(reqs, offers), offers)
    requires Matched(reqs, offers) != []
    ensures SomeStoreReachesBar(reqs, offers) <==> exists q :: Qualifies(Matched(reqs, offers), table, q)
  {
    var matched := Matched(reqs, offers);
    forall s
      ensures SoldCount(reqs, offers, s) >= CoverageBar(|matched|) <==> Qualifies(matched, table, s)
    {
      GainIsSoldCount(reqs, offers, table, s);
      assert RowAt(table, s) == Row(matched, offers, s);
    }
  }

  /** The first of the cheapest offers for `r` is at store `s`. */
  ghost predicate CheapestIsAt(offers: OfferBook, r: Requirement, s: StoreCode) {
    exists i :: FirstLeast(r, OffersFor(offers, r.key), None, i) && OffersFor(offers, r.key)[i].storeCode == s
  }

  /** Three requirements have their first cheapest offers at three different stores. */
  ghost predicate CheapestAtThreeStores(reqs: seq<Requirement>, offers: OfferBook) {
    exists s, t, u :: s != t && t != u && s != u
      && CheapestForSome(reqs, offers, s) && CheapestForSome(reqs, offers, t) && CheapestForSome(reqs, offers, u)
  }

  ghost predicate CheapestForSome(reqs: seq<Requirement>, offers: OfferBook, s: StoreCode) {
    exists i :: 0 <= i < |reqs| && CheapestIsAt(offers, reqs[i], s)
  }

  lemma OneFirstLeast(r: Requirement, os: seq<Offer>, i: int, j: int)
    requires FirstLeast(r, os, None, i) && FirstLeast(r, os, None, j)
    ensures i == j
  {
    assert Allowed(None, os[i].storeCode) && Allowed(None, os[j].storeCode);
  }

  lemma CheapestEntry(offers: OfferBook, r: Requirement, s: StoreCode)
    ensures var a := CheapestPick(offers, None)(r);
      CheapestIsAt(offers, r, s) <==> a.Some? && a.value.offer.storeCode == s
  {
    var os := OffersFor(offers, r.key);
    assert forall j :: 0 <= j < |os| ==> Allowed(None, os[j].storeCode);
    CheapestOfIsFirstLeast(r, os, None);
    match CheapestPick(offers, None)(r)
    case None =>
    case Some(a) =>
      var i :| BoughtAt(r, os, i, a) && FirstLeast(r, os, None, i);
      forall j | FirstLeast(r, os, None, j)
        ensures j == i
      {
        OneFirstLeast(r, os, i, j);
      }
  }

  lemma CheapestStores(reqs: seq<Requirement>, offers: OfferBook, b: Basket, s: StoreCode)
    requires DistinctKeys(reqs) && b == PickAll(reqs, CheapestPick(offers, None)) && b.Valid()
    ensures s in StoresOf(b.Values()) <==> CheapestForSome(reqs, offers, s)
  {
    PickAllFacts(reqs, CheapestPick(offers, None));
    forall i | 0 <= i < |reqs| {
      CheapestEntry(offers, reqs[i], s);
    }
    if s in StoresOf(b.Values()) {
      var k := StoreUsed(b, s);
      var i :| 0 <= i < |reqs| && reqs[i].key == k;
      assert CheapestIsAt(offers, reqs[i], s);
    }
    if CheapestForSome(reqs, offers, s) {
      var i :| 0 <= i < |reqs| && CheapestIsAt(offers, reqs[i], s);
      UsesStore(b, reqs[i].key);
    }
  }

  ghost predicate ThreeDifferent(used: seq<StoreCode>) {
    exists s, t, u :: s != t && t != u && s != u && s in used && t in used && u in used
  }

  lemma ThreeOfThem(used: seq<StoreCode>)
    requires forall i, j :: 0 <= i < j < |used| ==> used[i] != used[j]
    ensures |used| >= 3 <==> ThreeDifferent(used)
  {
    if |used| >= 3 {
      assert used[0] in used && used[1] in used && used[2] in used;
    }
    if ThreeDifferent(used) {
      var s, t, u :| s != t && t != u && s != u && s in used && t in used && u in used;
      DistinctWithin([s, t, u], used);
    }
  }

  lemma ThreeStoresUsed(reqs: seq<Requirement>, offers: OfferBook, b: Basket)
    requires DistinctKeys(reqs) && b == PickAll(reqs, CheapestPick(offers, None)) && b.Valid()
    ensures |StoresOf(b.Values())| >= 3 <==> CheapestAtThreeStores(reqs, offers)
  {
    var used := StoresOf(b.Values());
    StoresOfFacts(b.Values());
    ThreeOfThem(used);
    forall s
      ensures s in used <==> CheapestForSome(reqs, offers, s)
    {
      CheapestStores(reqs, offers, b, s);
    }
  }

  /**
   * DELIVERY uses at most two stores exactly when some store sells 60% of what is sold or
   * no three requirements have their first cheapest offers at three different stores.
   */
  lemma DeliveryStoreCount(
    reqs: seq<Requirement>, offers: OfferBook, b: Basket, baseline: Option<real>, res: OptimizationResult)
    requires DistinctKeys(reqs)
    requires ResultOf(DELIVERY, reqs, offers, b, baseline, res)
    ensures res.storeCount <= 2 <==> SomeStoreReachesBar(reqs, offers) || !CheapestAtThreeStores(reqs, offers)
  {
    ResultBalances(DELIVERY, reqs, offers, b, baseline, res);
    var table, primary := DeliveryRun(reqs, offers, b, baseline, res);
    if Matched(reqs, offers) == [] {
      NothingCheapest(reqs, offers);
      DeliveryOfNothing(reqs, offers, table, primary, b);
    } else {
      BarIsCoverage(reqs, offers, table);
      DeliveryHasPrimary(reqs, offers, table, primary, b);
      if primary.Some? {
        DeliveryUsesTwoStores(reqs, offers, table, primary.value, b);
      } else {
        DeliveryFallsBack(reqs, offers, table, b);
        ThreeStoresUsed(reqs, offers, b);
      }
    }
  }

  lemma NothingCheapest(reqs: seq<Requirement>, offers: OfferBook)
    requires Matched(reqs, offers) == []
    ensures !CheapestAtThreeStores(reqs, offers)
  {
    MatchedFacts(reqs, offers);
    forall s
      ensures !CheapestForSome(reqs, offers, s)
    {
    }
  }

  lemma DeliveryOfNothing(
    reqs: seq<Requirement>, offers: OfferBook, table: StoreTable, primary: Option<StoreCode>, b: Basket)
    requires IsDelivery(reqs, offers, table, primary, b) && Matched(reqs, offers) == []
    ensures b.order == []
  {
    DeliveryHasPrimary(reqs, offers, table, primary, b);
    assert table.order == [];
  }
}
