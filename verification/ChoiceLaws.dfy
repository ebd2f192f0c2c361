/**
 * What the strategies choose by, told from the offers and the stores' terms: the quality
 * score, the greedy picks of CONVENIENCE, DELIVERY's coverage bar and its complements.
 */
module ChoiceLaws {
  import opened Sequences
  import opened Options
  import opened OrderedMaps
  import opened BasketTypes
  import opened Picking
  import opened StoreTables
  import opened Ranking
  import opened GreedyCover
  import opened Convenience
  import opened Delivery
  import opened DeliveryOptimality
  import opened Results
  import opened Optimizer
  import opened StoreCounts
  import opened ResultLaws
  import SetCover

  // ---- QUALITY ----

  /** `a` buys `r` at the `i`th offer, and no offer has more of twice its tier plus its store's score. */
  ghost predicate BestQuality(r: Requirement, os: seq<Offer>, i: int, a: Assignment) {
    && 0 <= i < |os| && a.offer == os[i]
    && forall j :: 0 <= j < |os| ==>
         var mine := 2.0 * os[i].qualityTier as real + os[i].storeQualityScore;
         var other := 2.0 * os[j].qualityTier as real + os[j].storeQualityScore;
         other < mine || (other == mine && a.costCents <= MakeAssignment(r, os[j]).costCents)
  }

  /** What QUALITY buys has the greatest quality, at the least cost among equals. */
  lemma QualityWeighsTierTwice(reqs: seq<Requirement>, offers: OfferBook, b: Basket, i: nat) returns (j: int)
    requires DistinctKeys(reqs) && Outcome(QUALITY, reqs, offers, b)
    requires i < |reqs| && reqs[i].key in b.entries
    ensures BestQuality(reqs[i], OffersFor(offers, reqs[i].key), j, b.entries[reqs[i].key])
  {
    PickAllFacts(reqs, QualityPick(offers));
    var r, os := reqs[i], OffersFor(offers, reqs[i].key);
    QualityOfIsFirstBest(r, os);
    j :| BoughtAt(r, os, j, b.entries[r.key]) && FirstBest(r, os, j);
  }

  /** So no offer it passes over has a higher tier, unless its store scores at least two less. */
  lemma HigherTierWins(r: Requirement, os: seq<Offer>, i: int, a: Assignment, j: nat)
    requires BestQuality(r, os, i, a) && j < |os|
    requires os[i].storeQualityScore < os[j].storeQualityScore + 2.0
    ensures os[j].qualityTier <= os[i].qualityTier
  {
    var mine, other := os[i].qualityTier, os[j].qualityTier;
    assert other > mine ==> other as real >= mine as real + 1.0;
  }

  // ---- the coverage bar ----

  /** The bar is 60%, rounded up. */
  lemma BarIsSixtyPercent(n: nat, c: nat)
    ensures CoverageBar(n) <= c <==> 5 * c >= 3 * n
  {
  }

  /** The store sells something, and at least 60% of all that anyone sells. */
  ghost predicate ReachesSixtyPercent(reqs: seq<Requirement>, offers: OfferBook, s: StoreCode) {
    SoldCount(reqs, offers, s) > 0 && 5 * SoldCount(reqs, offers, s) >= 3 * CountWhere(reqs, Offered(offers))
  }

  ghost function Offered(offers: OfferBook): Key -> bool {
    (k: Key) => OffersFor(offers, k) != []
  }

  lemma {:induction false} MatchedCount(reqs: seq<Requirement>, offers: OfferBook)
    ensures |Matched(reqs, offers)| == CountWhere(reqs, Offered(offers))
  {
    if reqs != [] {
      MatchedCount(reqs[..|reqs| - 1], offers);
    }
  }

  /** DELIVERY's primaries, and the stores the baseline averages, are those that reach 60%. */
  lemma QualifiesIffSixtyPercent(reqs: seq<Requirement>, offers: OfferBook, table: StoreTable, s: StoreCode)
    requires DistinctKeys(reqs) && IsStoreTable(table, Matched(reqs, offers), offers)
    ensures Qualifies(Matched(reqs, offers), table, s) <==> ReachesSixtyPercent(reqs, offers, s)
  {
    MatchedCount(reqs, offers);
    GainIsSoldCount(reqs, offers, table, s);
    BarIsSixtyPercent(|Matched(reqs, offers)|, SoldCount(reqs, offers, s));
    assert s in table.entries <==> RowAt(table, s).order != [];
  }

  // ---- CONVENIENCE's picks ----

  /** The key is sold by somebody, but by none of the stores taken. */
  ghost function StillWanted(offers: OfferBook, taken: seq<StoreCode>): Key -> bool {
    (k: Key) => OffersFor(offers, k) != [] && forall i :: 0 <= i < |taken| ==> !Sells(offers, k, taken[i])
  }

  ghost function AddedBy(offers: OfferBook, taken: seq<StoreCode>, s: StoreCode): Key -> bool {
    (k: Key) => StillWanted(offers, taken)(k) && Sells(offers, k, s)
  }

  /** What a requirement costs as picked, if it is of the given kind. */
  ghost function CostIf(pick: Pick, p: Key -> bool): Requirement -> int {
    (r: Requirement) => if p(r.key) then PickedCost(pick(r)) else 0
  }

  /** One requirement more in a basket that picks each on its own. */
  lemma PickCostStep(reqs: seq<Requirement>, pick: Pick, wanted: set<Key>)
    requires DistinctKeys(reqs) && reqs != []
    ensures var init, r := reqs[..|reqs| - 1], reqs[|reqs| - 1];
      var before, after := PickAll(init, pick), PickAll(reqs, pick);
      && before.Valid() && after.Valid()
      && CostWithin(after.entries, after.order, wanted)
         == CostWithin(before.entries, before.order, wanted) + if r.key in wanted then PickedCost(pick(r)) else 0
  {
    var init, r := reqs[..|reqs| - 1], reqs[|reqs| - 1];
    PickAllFacts(init, pick);
    PickAllFacts(reqs, pick);
    var before, after := PickAll(init, pick), PickAll(reqs, pick);
    assert r.key !in before.entries;
    if pick(r).Some? {
      assert after.order[..|before.order|] == before.order;
      SameCosts(before.entries, after.entries, before.order, wanted);
    }
  }

  /** The entries that are `wanted` cost what the requirements of kind `p` do. */
  lemma {:induction false} PickCosts(reqs: seq<Requirement>, pick: Pick, wanted: set<Key>, p: Key -> bool)
    requires DistinctKeys(reqs)
    requires forall i :: 0 <= i < |reqs| && pick(reqs[i]).Some? ==> (p(reqs[i].key) <==> reqs[i].key in wanted)
    ensures PickAll(reqs, pick).Valid()
    ensures CostWithin(PickAll(reqs, pick).entries, PickAll(reqs, pick).order, wanted)
            == Total(reqs, CostIf(pick, p))
  {
    if reqs != [] {
      PickCosts(reqs[..|reqs| - 1], pick, wanted, p);
      PickCostStep(reqs, pick, wanted);
    }
  }

  lemma {:induction false} SameCosts(
    m: map<Key, Assignment>, n: map<Key, Assignment>, order: seq<Key>, wanted: set<Key>)
    requires forall i :: 0 <= i < |order| ==> order[i] in m && order[i] in n && m[order[i]] == n[order[i]]
    ensures CostWithin(m, order, wanted) == CostWithin(n, order, wanted)
  {
    if order != [] {
      SameCosts(m, n, order[..|order| - 1], wanted);
    }
  }

  lemma {:induction false} NotInStock<S, K>(stock: S -> set<K>, keys: set<K>, taken: seq<S>, k: K)
    ensures k in SetCover.Remaining(stock, keys, taken) <==>
            k in keys && forall i :: 0 <= i < |taken| ==> k !in stock(taken[i])
  {
    if taken != [] {
      NotInStock(stock, keys, taken[..|taken| - 1], k);
    }
  }

  /** What is uncovered is what is sold by somebody and by none of the stores taken. */
  lemma RemainingIsWanted(
    matched: seq<Requirement>, offers: OfferBook, table: StoreTable, taken: seq<StoreCode>, i: nat)
    requires DistinctKeys(matched) && IsStoreTable(table, matched, offers) && i < |matched|
    requires OffersFor(offers, matched[i].key) != []
    ensures StillWanted(offers, taken)(matched[i].key) <==>
            matched[i].key in Remaining(table, KeysOf(matched), taken)
  {
    var k := matched[i].key;
    NotInStock(Stock(table), KeysOf(matched), taken, k);
    forall j | 0 <= j < |taken|
      ensures k in Stock(table)(taken[j]) <==> Sells(offers, k, taken[j])
    {
      StockIsSold(table, matched, offers, i, taken[j]);
    }
  }

  lemma AddedIsStocked(
    matched: seq<Requirement>, offers: OfferBook, table: StoreTable, taken: seq<StoreCode>, s: StoreCode, i: nat)
    requires DistinctKeys(matched) && IsStoreTable(table, matched, offers) && i < |matched|
    requires OffersFor(offers, matched[i].key) != []
    ensures var k, left := matched[i].key, Remaining(table, KeysOf(matched), taken);
      && (AddedBy(offers, taken, s)(k) <==> k in Stock(table)(s) && k in left)
      && (CheapestPick(offers, Some({s}))(matched[i]).Some? ==> (AddedBy(offers, taken, s)(k) <==> k in left))
  {
    RemainingIsWanted(matched, offers, table, taken, i);
    StockIsSold(table, matched, offers, i, s);
    SoldAtStore(matched[i], offers, s);
  }

  lemma GainIsAdded(
    matched: seq<Requirement>, offers: OfferBook, table: StoreTable, taken: seq<StoreCode>, s: StoreCode)
    requires DistinctKeys(matched) && IsStoreTable(table, matched, offers)
    requires forall i :: 0 <= i < |matched| ==> OffersFor(offers, matched[i].key) != []
    ensures SetCover.Gain(Stock(table), s, Remaining(table, KeysOf(matched), taken))
            == CountWhere(matched, AddedBy(offers, taken, s))
  {
    var left, p := Remaining(table, KeysOf(matched), taken), AddedBy(offers, taken, s);
    SetCover.RemainingFacts(Stock(table), KeysOf(matched), taken);
    forall i | 0 <= i < |matched|
      ensures p(matched[i].key) <==> matched[i].key in Stock(table)(s) * left
    {
      AddedIsStocked(matched, offers, table, taken, s, i);
    }
    CountIsKeys(matched, p);
    assert KeysWhere(matched, p) == Stock(table)(s) * left;
  }

  lemma CostIsAdded(
    matched: seq<Requirement>, offers: OfferBook, table: StoreTable, taken: seq<StoreCode>, s: StoreCode)
    requires DistinctKeys(matched) && IsStoreTable(table, matched, offers) && ValidTable(table)
    requires forall i :: 0 <= i < |matched| ==> OffersFor(offers, matched[i].key) != []
    ensures CostWithin(RowAt(table, s).entries, RowAt(table, s).order, Remaining(table, KeysOf(matched), taken))
            == Total(matched, CostIf(CheapestPick(offers, Some({s})), AddedBy(offers, taken, s)))
  {
    var left, p := Remaining(table, KeysOf(matched), taken), AddedBy(offers, taken, s);
    forall i | 0 <= i < |matched| && CheapestPick(offers, Some({s}))(matched[i]).Some?
      ensures p(matched[i].key) <==> matched[i].key in left
    {
      AddedIsStocked(matched, offers, table, taken, s, i);
    }
    PickCosts(matched, CheapestPick(offers, Some({s})), left, p);
    assert RowAt(table, s) == Row(matched, offers, s);
  }

  /** A store's rank in the sweep: how many wanted requirements it sells, and their cheapest cost there. */
  lemma RankIsAdded(
    reqs: seq<Requirement>, offers: OfferBook, table: StoreTable, taken: seq<StoreCode>, s: StoreCode)
    requires DistinctKeys(reqs) && IsStoreTable(table, Matched(reqs, offers), offers) && ValidTable(table)
    ensures var matched, p := Matched(reqs, offers), AddedBy(offers, taken, s);
      Ranks(table, Remaining(table, KeysOf(matched), taken))(s) ==
      Rank(CountWhere(matched, p), Total(matched, CostIf(CheapestPick(offers, Some({s})), p)))
  {
    MatchedFacts(reqs, offers);
    GainIsAdded(Matched(reqs, offers), offers, table, taken, s);
    CostIsAdded(Matched(reqs, offers), offers, table, taken, s);
  }

  lemma {:induction false} PickAt(table: StoreTable, keys: set<Key>, taken: seq<StoreCode>, n: nat)
    requires ValidTable(table) && PickRun(table, keys, taken) && n < |taken|
    ensures GreedyPick(table, taken[..n], Remaining(table, keys, taken[..n]), taken[n])
  {
    var init := taken[..|taken| - 1];
    if n < |init| {
      PickAt(table, keys, init, n);
      assert init[..n] == taken[..n];
    } else {
      assert taken[..n] == init;
    }
  }

  /**
   * Each store CONVENIENCE takes sells something still wanted, as many requirements as any
   * other untaken store, and for the least money among those that sell as many.
   */
  lemma EachPickIsBest(
    reqs: seq<Requirement>, offers: OfferBook, table: StoreTable, selected: seq<StoreCode>, n: nat, t: StoreCode)
    requires DistinctKeys(reqs) && Selection(reqs, offers, table, selected)
    requires n < |selected| && t !in selected[..n]
    ensures var matched, s := Matched(reqs, offers), selected[n];
      var mine, other := AddedBy(offers, selected[..n], s), AddedBy(offers, selected[..n], t);
      && CountWhere(matched, mine) > 0
      && CountWhere(matched, other) <= CountWhere(matched, mine)
      && (CountWhere(matched, other) == CountWhere(matched, mine) ==>
            Total(matched, CostIf(CheapestPick(offers, Some({s})), mine))
            <= Total(matched, CostIf(CheapestPick(offers, Some({t})), other)))
  {
    var matched, taken, s := Matched(reqs, offers), selected[..n], selected[n];
    var rank := Ranks(table, Remaining(table, KeysOf(matched), taken));
    PickAt(table, KeysOf(matched), selected, n);
    RankIsAdded(reqs, offers, table, taken, s);
    RankIsAdded(reqs, offers, table, taken, t);
    Unbeaten(table.order, KeySet(taken), rank, s, t);
    assert t !in table.order ==> rank(t).gain == 0;
  }

  /** The top of a sweep gains something and is beaten by no candidate. */
  lemma Unbeaten<S>(order: seq<S>, skip: set<S>, rank: S -> Rank, s: S, t: S)
    requires TopOf(order, skip, rank) == Some(s) && t !in skip
    ensures rank(s).gain > 0
    ensures t in order ==>
              rank(t).gain < rank(s).gain || (rank(t).gain == rank(s).gain && rank(s).cost <= rank(t).cost)
  {
    var i := TopOfIsFirst(order, skip, rank);
    if t in order {
      var j :| 0 <= j < |order| && order[j] == t;
      assert !Beats(rank(order[j]), rank(order[i]));
    }
  }

  // ---- DELIVERY's complements ----

  /** Goods plus the store's fee, which is waived from its minimum on. */
  ghost function Bill(terms: StoreTerms, goods: int): int {
    goods + match terms.freeDeliveryMinCents
      case Some(minimum) => if goods >= minimum then 0 else terms.deliveryFeeCents
      case None => terms.deliveryFeeCents
  }

  ghost function LacksAndHas(prow: Basket, row: Basket): Key -> bool {
    (k: Key) => k !in prow.entries && k in row.entries
  }

  ghost function CostIfLacking(prow: Basket, row: Basket): Requirement -> int {
    (r: Requirement) => if LacksAndHas(prow, row)(r.key) then row.entries[r.key].costCents else 0
  }

  /** One wanted key more in a restriction. */
  lemma RestrictLast(row: Basket, wanted: seq<Key>, k: Key)
    requires DistinctOrder(wanted + [k])
    ensures var before, after := Restrict(row, wanted), Restrict(row, wanted + [k]);
      && before.Valid() && after.Valid()
      && |after.order| == |before.order| + (if k in row.entries then 1 else 0)
      && TotalCost(after.Values())
         == TotalCost(before.Values()) + if k in row.entries then row.entries[k].costCents else 0
  {
    AppendInit(wanted, k);
    FullPrefix(wanted + [k]);
    assert forall i :: 0 <= i < |wanted| ==> (wanted + [k])[i] == wanted[i];
    RestrictStep(row, wanted + [k], |wanted|);
    RestrictFacts(row, wanted);
  }

  /** One requirement more: what the primary lacks of it and the row has. */
  lemma ExtraStep(reqs: seq<Requirement>, prow: Basket, row: Basket)
    requires DistinctKeys(reqs) && reqs != []
    ensures var before := Restrict(row, Missing(reqs[..|reqs| - 1], prow));
      var after, r := Restrict(row, Missing(reqs, prow)), reqs[|reqs| - 1];
      && before.Valid() && after.Valid()
      && |after.order| == |before.order| + (if LacksAndHas(prow, row)(r.key) then 1 else 0)
      && TotalCost(after.Values()) == TotalCost(before.Values()) + CostIfLacking(prow, row)(r)
  {
    var wanted, k := Missing(reqs[..|reqs| - 1], prow), reqs[|reqs| - 1].key;
    MissingFacts(reqs, prow);
    RestrictFacts(row, Missing(reqs, prow));
    if k !in prow.entries {
      RestrictLast(row, wanted, k);
    }
  }

  lemma {:induction false} ExtraFigures(reqs: seq<Requirement>, prow: Basket, row: Basket)
    requires DistinctKeys(reqs)
    ensures var extra := Restrict(row, Missing(reqs, prow));
      && extra.Valid()
      && |extra.order| == CountWhere(reqs, LacksAndHas(prow, row))
      && TotalCost(extra.Values()) == Total(reqs, CostIfLacking(prow, row))
  {
    if reqs != [] {
      ExtraFigures(reqs[..|reqs| - 1], prow, row);
      ExtraStep(reqs, prow, row);
    }
  }

  /** What store `s` would add to primary `p`: how much of what `p` lacks, and at what cost with delivery. */
  ghost function Addition(
    matched: seq<Requirement>, table: StoreTable, stores: StoreCode -> StoreTerms, p: StoreCode): StoreCode -> Rank
  {
    (s: StoreCode) =>
      Rank(CountWhere(matched, LacksAndHas(RowAt(table, p), RowAt(table, s))),
           Bill(stores(s), Total(matched, CostIfLacking(RowAt(table, p), RowAt(table, s)))))
  }

  lemma RankIsAddition(
    matched: seq<Requirement>, offers: OfferBook, table: StoreTable, stores: StoreCode -> StoreTerms,
    p: StoreCode, s: StoreCode)
    requires DistinctKeys(matched) && IsStoreTable(table, matched, offers) && FromStores(offers, stores)
    requires s in table.entries
    ensures ComplementRank(matched, table, p)(s) == Addition(matched, table, stores, p)(s)
  {
    ExtraFigures(matched, RowAt(table, p), RowAt(table, s));
    RowAllAt(matched, offers, table, stores, s);
    assert RowAt(table, s).order != [];
  }

  /**
   * The complement DELIVERY takes for a primary sells something it lacks, as much as any
   * other store, at the least bill among those; it takes none when no store has anything.
   */
  lemma ComplementIsBest(
    matched: seq<Requirement>, offers: OfferBook, table: StoreTable, stores: StoreCode -> StoreTerms,
    p: StoreCode, t: StoreCode)
    requires DistinctKeys(matched) && IsStoreTable(table, matched, offers) && FromStores(offers, stores)
    requires t in table.entries && t != p
    ensures var added := Addition(matched, table, stores, p);
      match BestComplement(matched, table, p)
      case None => added(t).gain == 0
      case Some(c) =>
        && added(c).gain > 0 && added(t).gain <= added(c).gain
        && (added(t).gain == added(c).gain ==> added(c).cost <= added(t).cost)
  {
    RankIsAddition(matched, offers, table, stores, p, t);
    BestComplementIsMaximal(matched, table, p);
    var rank := ComplementRank(matched, table, p);
    match BestComplement(matched, table, p)
    case None => assert rank(t).gain == |Extra(matched, table, p, t).order|;
    case Some(c) =>
      RankIsAddition(matched, offers, table, stores, p, c);
      Unbeaten(table.order, {p}, rank, c, t);
  }

  // ---- the baseline ----

  /** What everything store `s` sells costs there, delivery included. */
  ghost function StoreBill(
    matched: seq<Requirement>, offers: OfferBook, stores: StoreCode -> StoreTerms): StoreCode -> int
  {
    (s: StoreCode) => Bill(stores(s), PickTotal(matched, CheapestPick(offers, Some({s}))))
  }

  /** The stores averaged, in table order. */
  lemma {:induction false} SingleTotalsAreBills(
    matched: seq<Requirement>, offers: OfferBook, table: StoreTable, stores: StoreCode -> StoreTerms,
    order: seq<StoreCode>, bar: nat)
    requires DistinctKeys(matched) && IsStoreTable(table, matched, offers) && FromStores(offers, stores)
    requires ValidTable(table) && forall i :: 0 <= i < |order| ==> order[i] in table.entries
    ensures |SingleTotals(table, order, bar)| == |Candidates(table, order, bar)|
    ensures SumInts(SingleTotals(table, order, bar))
            == Total(Candidates(table, order, bar), StoreBill(matched, offers, stores))
  {
    if order != [] {
      var init, s := order[..|order| - 1], order[|order| - 1];
      SingleTotalsAreBills(matched, offers, table, stores, init, bar);
      RowBill(matched, offers, table, stores, s);
      var all := Candidates(table, order, bar);
      assert all != Candidates(table, init, bar) ==> all[..|all| - 1] == Candidates(table, init, bar);
    }
  }

  lemma RowBill(
    matched: seq<Requirement>, offers: OfferBook, table: StoreTable, stores: StoreCode -> StoreTerms, s: StoreCode)
    requires DistinctKeys(matched) && IsStoreTable(table, matched, offers) && FromStores(offers, stores)
    requires ValidTable(table) && s in table.entries
    ensures var subtotal := TotalCost(RowAt(table, s).Values());
      subtotal + DeliveryForSubtotal(subtotal, RowAt(table, s)) == StoreBill(matched, offers, stores)(s)
  {
    RowAllAt(matched, offers, table, stores, s);
    assert RowAt(table, s) == Row(matched, offers, s) && RowAt(table, s).order != [];
    PickAllTotal(matched, CheapestPick(offers, Some({s})));
  }

  /** `listed` holds exactly what satisfies `p`, each once. */
  ghost predicate ListsAll<S(!new)>(listed: seq<S>, p: S -> bool) {
    && (forall i, j :: 0 <= i < j < |listed| ==> listed[i] != listed[j])
    && forall s :: s in listed <==> p(s)
  }

  lemma OneMoreListed<S>(listed: seq<S>, x: S)
    requires forall i, j :: 0 <= i < j < |listed| ==> listed[i] != listed[j]
    requires x !in listed
    ensures forall i, j :: 0 <= i < j < |listed + [x]| ==> (listed + [x])[i] != (listed + [x])[j]
  {
  }

  lemma {:induction false} CandidatesDistinct(table: StoreTable, order: seq<StoreCode>, bar: nat)
    requires forall i, j :: 0 <= i < j < |order| ==> order[i] != order[j]
    ensures forall i, j :: 0 <= i < j < |Candidates(table, order, bar)| ==>
              Candidates(table, order, bar)[i] != Candidates(table, order, bar)[j]
  {
    if order != [] {
      var init, s := order[..|order| - 1], order[|order| - 1];
      CandidatesDistinct(table, init, bar);
      CandidatesFacts(table, init, bar);
      assert s !in init;
      OneMoreListed(Candidates(table, init, bar), s);
    }
  }

  ghost function Reaching(reqs: seq<Requirement>, offers: OfferBook): StoreCode -> bool {
    (s: StoreCode) => ReachesSixtyPercent(reqs, offers, s)
  }

  lemma QualifyingIffReaches(reqs: seq<Requirement>, offers: OfferBook, table: StoreTable, s: StoreCode)
    requires DistinctKeys(reqs) && IsStoreTable(table, Matched(reqs, offers), offers)
    ensures s in Qualifying(Matched(reqs, offers), table) <==> ReachesSixtyPercent(reqs, offers, s)
  {
    QualifyingIsCandidate(Matched(reqs, offers), table, s);
    QualifiesIffSixtyPercent(reqs, offers, table, s);
  }

  lemma QualifyingReach(reqs: seq<Requirement>, offers: OfferBook, table: StoreTable, listed: seq<StoreCode>)
    requires DistinctKeys(reqs) && IsStoreTable(table, Matched(reqs, offers), offers)
    requires listed == Qualifying(Matched(reqs, offers), table)
    ensures ListsAll(listed, Reaching(reqs, offers))
  {
    CandidatesDistinct(table, table.order, CoverageBar(|Matched(reqs, offers)|));
    var p := Reaching(reqs, offers);
    forall s
      ensures s in listed <==> p(s)
    {
      QualifyingIffReaches(reqs, offers, table, s);
    }
  }

  /** `baseline` is the mean of `bill` over the listed stores; there is none over no stores. */
  ghost predicate IsMeanOf(baseline: Option<real>, listed: seq<StoreCode>, bill: StoreCode -> int) {
    match baseline
    case None => listed == []
    case Some(mean) => listed != [] && mean * |listed| as real == Total(listed, bill) as real
  }

  lemma MeanTimesCount(totals: seq<int>, listed: seq<StoreCode>, bill: StoreCode -> int)
    requires |totals| == |listed| && SumInts(totals) == Total(listed, bill)
    ensures IsMeanOf(Mean(totals), listed, bill)
  {
  }

  lemma BaselineOverQualifying(
    matched: seq<Requirement>, offers: OfferBook, table: StoreTable, stores: StoreCode -> StoreTerms)
    requires DistinctKeys(matched) && IsStoreTable(table, matched, offers) && FromStores(offers, stores)
    requires ValidTable(table)
    ensures IsMeanOf(Mean(SingleTotals(table, table.order, CoverageBar(|matched|))),
                     Qualifying(matched, table), StoreBill(matched, offers, stores))
  {
    var bar, bill := CoverageBar(|matched|), StoreBill(matched, offers, stores);
    SingleTotalsAreBills(matched, offers, table, stores, table.order, bar);
    MeanTimesCount(SingleTotals(table, table.order, bar), Candidates(table, table.order, bar), bill);
  }

  /** The baseline is the mean of what the stores that reach 60% would charge; none without any such store. */
  lemma BaselineIsTheMean(
    reqs: seq<Requirement>, offers: OfferBook, stores: StoreCode -> StoreTerms, table: StoreTable,
    baseline: Option<real>)
    returns (listed: seq<StoreCode>)
    requires DistinctKeys(reqs) && FromStores(offers, stores) && IsBaseline(reqs, offers, table, baseline)
    ensures ListsAll(listed, Reaching(reqs, offers))
    ensures IsMeanOf(baseline, listed, StoreBill(Matched(reqs, offers), offers, stores))
  {
    MatchedFacts(reqs, offers);
    listed := Qualifying(Matched(reqs, offers), table);
    QualifyingReach(reqs, offers, table, listed);
    BaselineOverQualifying(Matched(reqs, offers), offers, table, stores);
  }
}
