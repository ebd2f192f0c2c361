/** What the DELIVERY strategy guarantees. */
module DeliveryOptimality {
  import opened Options
  import opened OrderedMaps
  import opened BasketTypes
  import opened Picking
  import opened StoreTables
  import opened Ranking
  import opened Grouping
  import opened GreedyCover
  import opened Convenience
  import opened Delivery

  lemma QualifyingIsCandidate(matched: seq<Requirement>, table: StoreTable, q: StoreCode)
    requires table.Valid()
    ensures q in Qualifying(matched, table) <==> Qualifies(matched, table, q)
  {
    CandidatesFacts(table, table.order, CoverageBar(|matched|));
    assert q in table.order <==> q in table.entries;
  }

  /** The primary that wins is no dearer than any other qualifying one with its own complement. */
  lemma PrimaryIsLeast(matched: seq<Requirement>, table: StoreTable, p: StoreCode, q: StoreCode)
    requires DistinctKeys(matched) && ValidTable(table)
    requires LeastOf(Qualifying(matched, table), PrimaryCost(matched, table)) == Some(p)
    requires Qualifies(matched, table, q)
    ensures Qualifies(matched, table, p)
    ensures PrimaryCost(matched, table)(p) <= PrimaryCost(matched, table)(q)
  {
    var cost, order := PrimaryCost(matched, table), Qualifying(matched, table);
    var i := LeastOfIsFirst(order, cost);
    QualifyingIsCandidate(matched, table, p);
    QualifyingIsCandidate(matched, table, q);
    var j :| 0 <= j < |order| && order[j] == q;
    assert cost(order[i]) <= cost(order[j]);
  }

  /** Among the complements of greatest coverage the one chosen is cheapest, delivery included. */
  lemma ComplementIsCheapest(matched: seq<Requirement>, table: StoreTable, q: StoreCode, c: Option<StoreCode>)
    requires DistinctKeys(matched) && table.Valid()
    requires MaximalComplement(matched, table, q, c)
    ensures var best, rank := BestComplement(matched, table, q), ComplementRank(matched, table, q);
      && (best.None? <==> c.None?)
      && (best.Some? ==> rank(best.value).cost <= rank(c.value).cost)
  {
    var best, rank := BestComplement(matched, table, q), ComplementRank(matched, table, q);
    BestComplementIsMaximal(matched, table, q);
    if best.Some? && c.Some? {
      var i := TopOfIsFirst(table.order, {q}, rank);
      var j :| 0 <= j < |table.order| && table.order[j] == c.value;
      assert !Beats(rank(table.order[j]), rank(table.order[i]));
      assert rank(c.value).gain == |Extra(matched, table, q, c.value).order|;
      assert rank(best.value).gain == |Extra(matched, table, q, best.value).order|;
    }
  }

  /** Store `s` has something primary `p` lacks. */
  ghost predicate Adds(matched: seq<Requirement>, table: StoreTable, p: StoreCode, s: StoreCode) {
    s in table.entries && s != p && Extra(matched, table, p, s).order != []
  }

  /** No store that adds anything to `p` does so at a lower cost with delivery. */
  ghost predicate LeastScore(matched: seq<Requirement>, table: StoreTable, p: StoreCode, s: StoreCode)
    requires DistinctKeys(matched)
  {
    var rank := ComplementRank(matched, table, p);
    Adds(matched, table, p, s) && forall t :: Adds(matched, table, p, t) ==> rank(s).cost <= rank(t).cost
  }

  /**
   * The complement chosen is the cheapest of all that add anything exactly when some
   * complement of greatest coverage is.
   */
  lemma ComplementIsLeastIff(matched: seq<Requirement>, table: StoreTable, p: StoreCode)
    requires DistinctKeys(matched) && table.Valid() && BestComplement(matched, table, p).Some?
    ensures LeastScore(matched, table, p, BestComplement(matched, table, p).value) <==>
            exists s :: MaximalComplement(matched, table, p, Some(s)) && LeastScore(matched, table, p, s)
  {
    var best := BestComplement(matched, table, p).value;
    BestComplementIsMaximal(matched, table, p);
    forall s | MaximalComplement(matched, table, p, Some(s)) && LeastScore(matched, table, p, s)
      ensures LeastScore(matched, table, p, best)
    {
      ComplementIsCheapest(matched, table, p, Some(s));
    }
  }

  /**
   * DELIVERY is optimal among its combinations: no qualifying primary, joined with
   * any complement of maximal coverage for it, has a lower grand total.
   */
  lemma DeliveryIsOptimal(
    reqs: seq<Requirement>, offers: OfferBook, stores: StoreCode -> StoreTerms, table: StoreTable,
    primary: Option<StoreCode>, b: Basket, q: StoreCode, c: Option<StoreCode>)
    requires IsDelivery(reqs, offers, table, primary, b) && FromStores(offers, stores)
    requires Qualifies(Matched(reqs, offers), table, q) && MaximalComplement(Matched(reqs, offers), table, q, c)
    ensures b.Valid() && Combo(Matched(reqs, offers), table, q, c).Valid()
    ensures GrandOf(b.Values()) <= GrandOf(Combo(Matched(reqs, offers), table, q, c).Values())
  {
    var matched := Matched(reqs, offers);
    SomePrimary(matched, table, q, primary);
    var p := primary.value;
    PrimaryIsLeast(matched, table, p, q);
    ComboIsValid(matched, table, p, BestComplement(matched, table, p));
    BestComplementIsMaximal(matched, table, q);
    ComplementIsCheapest(matched, table, q, c);
    ComboGrand(matched, offers, table, stores, q, c);
    ComboGrand(matched, offers, table, stores, q, BestComplement(matched, table, q));
  }

  lemma SomePrimary(matched: seq<Requirement>, table: StoreTable, q: StoreCode, primary: Option<StoreCode>)
    requires DistinctKeys(matched) && ValidTable(table)
    requires primary == LeastOf(Qualifying(matched, table), PrimaryCost(matched, table))
    requires Qualifies(matched, table, q)
    ensures primary.Some?
  {
    QualifyingIsCandidate(matched, table, q);
    var _ := LeastOfIsFirst(Qualifying(matched, table), PrimaryCost(matched, table));
  }

  /** There is a primary exactly when some store reaches the bar. */
  lemma DeliveryHasPrimary(
    reqs: seq<Requirement>, offers: OfferBook, table: StoreTable, primary: Option<StoreCode>, b: Basket)
    requires IsDelivery(reqs, offers, table, primary, b)
    ensures match primary
      case Some(p) => Qualifies(Matched(reqs, offers), table, p)
      case None => forall q :: !Qualifies(Matched(reqs, offers), table, q)
  {
    var matched := Matched(reqs, offers);
    if primary.Some? {
      PrimaryQualifies(matched, table, primary.value);
    } else {
      forall q
        ensures !Qualifies(matched, table, q)
      {
        if Qualifies(matched, table, q) {
          SomePrimary(matched, table, q, primary);
        }
      }
    }
  }

  /** Everything in a store's row, and in what it adds, is bought there. */
  lemma LinesAtStore(
    matched: seq<Requirement>, offers: OfferBook, table: StoreTable, p: StoreCode, s: StoreCode)
    requires DistinctKeys(matched) && IsStoreTable(table, matched, offers)
    ensures RowAt(table, s).Valid()
    ensures forall i :: 0 <= i < |RowAt(table, s).Values()| ==> RowAt(table, s).Values()[i].offer.storeCode == s
    ensures Extra(matched, table, p, s).Valid()
    ensures forall i :: 0 <= i < |Extra(matched, table, p, s).Values()| ==>
              Extra(matched, table, p, s).Values()[i].offer.storeCode == s
  {
    RowFacts(matched, offers, s);
    assert RowAt(table, s) == Row(matched, offers, s);
    ExtraIsValid(matched, table, p, s);
  }

  /** A primary with a complement uses no store but the two. */
  lemma ComboStores(
    matched: seq<Requirement>, offers: OfferBook, table: StoreTable, p: StoreCode, c: Option<StoreCode>)
    requires DistinctKeys(matched) && IsStoreTable(table, matched, offers) && ValidTable(table)
    requires c.Some? ==> c.value != p
    ensures Combo(matched, table, p, c).Valid()
    ensures |StoresOf(Combo(matched, table, p, c).Values())| <= if c.None? then 1 else 2
  {
    ComboIsValid(matched, table, p, c);
    LinesAtStore(matched, offers, table, p, p);
    OnlyStore(RowAt(table, p).Values(), p);
    if c.Some? {
      LinesAtStore(matched, offers, table, p, c.value);
      JoinExtra(matched, table, p, c.value);
      StoresAmongTwo(Combo(matched, table, p, c).Values(), p, c.value);
    }
  }

  lemma OnlyStore(lines: seq<Assignment>, s: StoreCode)
    requires forall i :: 0 <= i < |lines| ==> lines[i].offer.storeCode == s
    ensures |StoresOf(lines)| <= 1
  {
    StoresOfFacts(lines);
    DistinctWithin(StoresOf(lines), [s]);
  }

  lemma StoresAmongTwo(lines: seq<Assignment>, s: StoreCode, t: StoreCode)
    requires forall i :: 0 <= i < |lines| ==> lines[i].offer.storeCode == s || lines[i].offer.storeCode == t
    ensures |StoresOf(lines)| <= 2
  {
    StoresOfFacts(lines);
    DistinctWithin(StoresOf(lines), [s, t]);
  }

  /** With a primary, at most two stores deliver and the basket reaches the bar. */
  lemma DeliveryUsesTwoStores(
    reqs: seq<Requirement>, offers: OfferBook, table: StoreTable, primary: StoreCode, b: Basket)
    requires IsDelivery(reqs, offers, table, Some(primary), b)
    ensures b.Valid()
    ensures |StoresOf(b.Values())| <= 2
    ensures |b.order| >= CoverageBar(|Matched(reqs, offers)|)
  {
    var matched := Matched(reqs, offers);
    var c := BestComplement(matched, table, primary);
    PrimaryQualifies(matched, table, primary);
    BestComplementIsMaximal(matched, table, primary);
    ComboStores(matched, offers, table, primary, c);
    ComboKeepsPrimary(matched, table, primary, c);
  }

  /** Without one, DELIVERY falls back to CHEAPEST's basket, however many stores that takes. */
  lemma DeliveryFallsBack(reqs: seq<Requirement>, offers: OfferBook, table: StoreTable, b: Basket)
    requires IsDelivery(reqs, offers, table, None, b)
    ensures b == PickAll(reqs, CheapestPick(offers, None))
  {
    PickAllMatched(reqs, offers, CheapestPick(offers, None));
  }

  lemma PrimaryQualifies(matched: seq<Requirement>, table: StoreTable, p: StoreCode)
    requires DistinctKeys(matched) && ValidTable(table)
    requires LeastOf(Qualifying(matched, table), PrimaryCost(matched, table)) == Some(p)
    ensures Qualifies(matched, table, p)
  {
    var order := Qualifying(matched, table);
    var i := LeastOfIsFirst(order, PrimaryCost(matched, table));
    assert order[i] in order;
    QualifyingIsCandidate(matched, table, p);
  }

  lemma ComboKeepsPrimary(matched: seq<Requirement>, table: StoreTable, p: StoreCode, c: Option<StoreCode>)
    requires DistinctKeys(matched) && ValidTable(table)
    ensures Combo(matched, table, p, c).Valid()
    ensures |Combo(matched, table, p, c).order| >= |RowAt(table, p).order|
    ensures RowAt(table, p).entries.Keys <= Combo(matched, table, p, c).entries.Keys
  {
    ComboIsValid(matched, table, p, c);
    if c.Some? {
      JoinExtra(matched, table, p, c.value);
      assert |Combo(matched, table, p, c).Values()| >= |RowAt(table, p).Values()|;
    }
  }

  // ---- what DELIVERY buys ----

  /** What a combination buys is what its primary or its complement sells. */
  lemma ComboHolds(
    matched: seq<Requirement>, offers: OfferBook, table: StoreTable, p: StoreCode, c: Option<StoreCode>, m: nat)
    requires DistinctKeys(matched) && IsStoreTable(table, matched, offers) && m < |matched|
    ensures matched[m].key in Combo(matched, table, p, c).entries <==>
              Sells(offers, matched[m].key, p) || (c.Some? && Sells(offers, matched[m].key, c.value))
  {
    StockIsSold(table, matched, offers, m, p);
    if c.Some? {
      StockIsSold(table, matched, offers, m, c.value);
      RowFacts(matched, offers, p);
      assert RowAt(table, p) == Row(matched, offers, p);
      JoinExtra(matched, table, p, c.value);
      ExtraHolds(matched, table, p, c.value, m);
    }
  }

  lemma ExtraHolds(matched: seq<Requirement>, table: StoreTable, p: StoreCode, s: StoreCode, m: nat)
    requires DistinctKeys(matched) && m < |matched|
    ensures matched[m].key in Extra(matched, table, p, s).entries <==>
              matched[m].key !in RowAt(table, p).entries && matched[m].key in RowAt(table, s).entries
  {
    MissingFacts(matched, RowAt(table, p));
    RestrictFacts(RowAt(table, s), Missing(matched, RowAt(table, p)));
  }

  /**
   * With a primary, DELIVERY buys a requirement exactly when the primary or its complement
   * sells it; without one, everything on offer.
   */
  lemma DeliveryBuysExactly(
    reqs: seq<Requirement>, offers: OfferBook, table: StoreTable, primary: Option<StoreCode>, b: Basket, m: nat)
    requires IsDelivery(reqs, offers, table, primary, b) && m < |Matched(reqs, offers)|
    ensures var matched := Matched(reqs, offers);
      matched[m].key in b.entries <==>
      match primary
      case None => true
      case Some(p) =>
        var c := BestComplement(matched, table, p);
        Sells(offers, matched[m].key, p) || (c.Some? && Sells(offers, matched[m].key, c.value))
  {
    var matched := Matched(reqs, offers);
    match primary
    case Some(p) => ComboHolds(matched, offers, table, p, BestComplement(matched, table, p), m);
    case None =>
      MatchedFacts(reqs, offers);
      PicksBuyOneOffer(matched, offers);
      PickAllFacts(matched, CheapestPick(offers, None));
  }

  /** Primary `q` with complement `c` buys everything on offer. */
  ghost predicate ComboHasAll(
    matched: seq<Requirement>, table: StoreTable, q: StoreCode, c: Option<StoreCode>)
    requires DistinctKeys(matched)
  {
    forall m :: 0 <= m < |matched| ==> matched[m].key in Combo(matched, table, q, c).entries
  }

  /** When every qualifying primary buys everything with its maximal complements, so does DELIVERY. */
  lemma DeliveryBuysAllWhenCombosDo(
    reqs: seq<Requirement>, offers: OfferBook, table: StoreTable, primary: Option<StoreCode>, b: Basket, m: nat)
    requires IsDelivery(reqs, offers, table, primary, b) && m < |Matched(reqs, offers)|
    requires var matched := Matched(reqs, offers);
      forall q, c :: Qualifies(matched, table, q) && MaximalComplement(matched, table, q, c) ==>
        ComboHasAll(matched, table, q, c)
    ensures Matched(reqs, offers)[m].key in b.entries
  {
    var matched := Matched(reqs, offers);
    match primary
    case Some(p) =>
      PrimaryQualifies(matched, table, p);
      BestComplementIsMaximal(matched, table, p);
      assert ComboHasAll(matched, table, p, BestComplement(matched, table, p));
    case None =>
      DeliveryBuysExactly(reqs, offers, table, primary, b, m);
  }

  // ---- stores that lack nothing ----

  lemma {:induction false} NothingMissing(reqs: seq<Requirement>, row: Basket)
    requires forall i :: 0 <= i < |reqs| ==> reqs[i].key in row.entries
    ensures Missing(reqs, row) == []
  {
    if reqs != [] {
      NothingMissing(reqs[..|reqs| - 1], row);
    }
  }

  /** A primary that stocks everything needs no complement: it costs what it costs alone. */
  lemma FullPrimary(reqs: seq<Requirement>, offers: OfferBook, table: StoreTable, s: StoreCode)
    requires DistinctKeys(reqs) && IsStoreTable(table, Matched(reqs, offers), offers) && ValidTable(table)
    requires DistinctKeys(Matched(reqs, offers)) && Matched(reqs, offers) != []
    requires StocksEverything(reqs, offers, s)
    ensures Qualifies(Matched(reqs, offers), table, s)
    ensures BestComplement(Matched(reqs, offers), table, s).None?
    ensures PrimaryCost(Matched(reqs, offers), table)(s) == GrandOf(RowAt(table, s).Values())
  {
    var matched := Matched(reqs, offers);
    FullRow(reqs, offers, table, s);
    NothingMissing(matched, RowAt(table, s));
    BestComplementIsMaximal(matched, table, s);
  }

  lemma FullRow(reqs: seq<Requirement>, offers: OfferBook, table: StoreTable, s: StoreCode)
    requires DistinctKeys(reqs) && IsStoreTable(table, Matched(reqs, offers), offers)
    requires StocksEverything(reqs, offers, s)
    ensures forall m :: 0 <= m < |Matched(reqs, offers)| ==> Matched(reqs, offers)[m].key in RowAt(table, s).entries
    ensures |RowAt(table, s).order| == |Matched(reqs, offers)|
    ensures Matched(reqs, offers) != [] ==> s in table.entries
  {
    var matched, pick := Matched(reqs, offers), CheapestPick(offers, Some({s}));
    MatchedFacts(reqs, offers);
    PickAllFacts(matched, pick);
    assert RowAt(table, s) == Row(matched, offers, s);
    forall m | 0 <= m < |matched|
      ensures pick(matched[m]).Some?
    {
      assert matched[m] in reqs;
      SoldAtStore(matched[m], offers, s);
    }
    PickAllFull(matched, pick);
  }

  /** When some store stocks everything, DELIVERY buys everything. */
  lemma DeliveryCoversAll(
    reqs: seq<Requirement>, offers: OfferBook, table: StoreTable, primary: Option<StoreCode>, b: Basket,
    full: StoreCode, m: nat)
    requires DistinctKeys(reqs) && IsDelivery(reqs, offers, table, primary, b)
    requires StocksEverything(reqs, offers, full) && m < |Matched(reqs, offers)|
    ensures Matched(reqs, offers)[m].key in b.entries
  {
    var matched := Matched(reqs, offers);
    FullPrimary(reqs, offers, table, full);
    FullRow(reqs, offers, table, full);
    SomePrimary(matched, table, full, primary);
    var p := primary.value;
    var c := BestComplement(matched, table, p);
    PrimaryQualifies(matched, table, p);
    ComboKeepsPrimary(matched, table, p, c);
    BestComplementIsMaximal(matched, table, p);
    if matched[m].key !in RowAt(table, p).entries {
      NothingLeftOut(matched, table, p, c, full, m);
    }
  }

  /** Next to a store that stocks everything, a complement of greatest coverage lacks nothing. */
  lemma NothingLeftOut(
    matched: seq<Requirement>, table: StoreTable, p: StoreCode, c: Option<StoreCode>, full: StoreCode, m: nat)
    requires DistinctKeys(matched) && ValidTable(table) && full in table.entries && m < |matched|
    requires forall i :: 0 <= i < |matched| ==> matched[i].key in RowAt(table, full).entries
    requires MaximalComplement(matched, table, p, c)
    requires matched[m].key !in RowAt(table, p).entries
    ensures matched[m].key in Combo(matched, table, p, c).entries
  {
    var wanted := Missing(matched, RowAt(table, p));
    MissingFacts(matched, RowAt(table, p));
    assert matched[m].key in wanted;
    forall k | k in wanted
      ensures k in RowAt(table, full).entries
    {
      var i :| 0 <= i < |matched| && matched[i].key == k;
    }
    RestrictLength(RowAt(table, full), wanted);
    assert |Extra(matched, table, p, full).order| == |wanted| > 0;
    RestrictLength(RowAt(table, c.value), wanted);
    RestrictFacts(RowAt(table, c.value), wanted);
    JoinExtra(matched, table, p, c.value);
  }
}
