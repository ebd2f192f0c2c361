/**
 * The DELIVERY strategy: a primary store that reaches the coverage bar, one
 * complementary store for what it lacks, and the least grand total over primaries.
 */
module Delivery {
  import opened Sequences
  import opened Options
  import opened OrderedMaps
  import opened BasketTypes
  import opened Picking
  import opened StoreTables
  import opened Ranking
  import opened Grouping
  import opened GreedyCover

  /** 60% of the matched requirements, rounded up. */
  function CoverageBar(n: nat): nat {
    (3 * n + 4) / 5
  }

  /** The keys of `reqs` that `row` does not hold, in order. */
  function Missing(reqs: seq<Requirement>, row: Basket): seq<Key> {
    if reqs == [] then []
    else
      var before, k := Missing(reqs[..|reqs| - 1], row), reqs[|reqs| - 1].key;
      if k in row.entries then before else before + [k]
  }

  /** What `row` holds of the keys in `wanted`, in their order. */
  function Restrict(row: Basket, wanted: seq<Key>): Basket {
    if wanted == [] then Empty()
    else
      var before, k := Restrict(row, wanted[..|wanted| - 1]), wanted[|wanted| - 1];
      if k in row.entries then before.Set(k, row.entries[k]) else before
  }

  function DeliveryForSubtotal(subtotalCents: int, row: Basket): int {
    if row.order == [] || row.order[0] !in row.entries then 0
    else DeliveryFee(TermsOf(row.entries[row.order[0]].offer), subtotalCents)
  }

  // ---- facts about the pieces ----

  ghost predicate DistinctOrder(s: seq<Key>) {
    forall i, j :: 0 <= i < j < |s| ==> s[i] != s[j]
  }

  lemma {:induction false} MissingFacts(reqs: seq<Requirement>, row: Basket)
    ensures forall k <- Missing(reqs, row) :: k !in row.entries && HasKey(reqs, k)
    ensures forall i :: 0 <= i < |reqs| && reqs[i].key !in row.entries ==> reqs[i].key in Missing(reqs, row)
    ensures DistinctKeys(reqs) ==> DistinctOrder(Missing(reqs, row))
  {
    if reqs != [] {
      var init := reqs[..|reqs| - 1];
      MissingFacts(init, row);
      forall k | k in Missing(init, row)
        ensures HasKey(reqs, k)
      {
        var i :| 0 <= i < |init| && init[i].key == k;
        assert reqs[i].key == k;
      }
      assert reqs[|reqs| - 1].key == reqs[|reqs| - 1].key;
      if DistinctKeys(reqs) {
        forall k | k in Missing(init, row)
          ensures k != reqs[|reqs| - 1].key
        {
          var i :| 0 <= i < |init| && init[i].key == k;
          assert reqs[i].key == k;
        }
      }
    }
  }

  lemma {:induction false} RestrictFacts(row: Basket, wanted: seq<Key>)
    requires DistinctOrder(wanted)
    ensures Restrict(row, wanted).Valid()
    ensures forall k <- Restrict(row, wanted).entries ::
              k in wanted && k in row.entries && Restrict(row, wanted).entries[k] == row.entries[k]
    ensures forall k <- wanted :: k in row.entries ==> k in Restrict(row, wanted).entries
  {
    if wanted != [] {
      var init, k := wanted[..|wanted| - 1], wanted[|wanted| - 1];
      RestrictFacts(row, init);
      if k in row.entries {
        SetKeepsValid(Restrict(row, init), k, row.entries[k]);
      }
    }
  }

  /** A restriction is no longer than what was wanted, and as long only if nothing was lacking. */
  lemma {:induction false} RestrictLength(row: Basket, wanted: seq<Key>)
    requires DistinctOrder(wanted)
    ensures |Restrict(row, wanted).order| <= |wanted|
    ensures |Restrict(row, wanted).order| == |wanted| <==> forall k <- wanted :: k in row.entries
  {
    if wanted != [] {
      var init, k := wanted[..|wanted| - 1], wanted[|wanted| - 1];
      RestrictLength(row, init);
      RestrictFacts(row, init);
      assert k !in init;
      assert forall x <- wanted :: x in init || x == k;
      assert k in wanted && forall x <- init :: x in wanted;
    }
  }

  // ---- the choice of complement ----

  /** What store `s` would add to primary `p`. */
  function Extra(matched: seq<Requirement>, table: StoreTable, p: StoreCode, s: StoreCode): Basket {
    Restrict(RowAt(table, s), Missing(matched, RowAt(table, p)))
  }

  /** Coverage it would add, and its cost with delivery. */
  ghost function ComplementRank(matched: seq<Requirement>, table: StoreTable, p: StoreCode): StoreCode -> Rank
    requires DistinctKeys(matched)
  {
    (s: StoreCode) =>
      var extra := Extra(matched, table, p, s);
      ExtraIsValid(matched, table, p, s);
      var cost := TotalCost(extra.Values());
      Rank(|extra.order|, cost + DeliveryForSubtotal(cost, RowAt(table, s)))
  }

  lemma ExtraIsValid(matched: seq<Requirement>, table: StoreTable, p: StoreCode, s: StoreCode)
    requires DistinctKeys(matched)
    ensures Extra(matched, table, p, s).Valid()
    ensures Extra(matched, table, p, s).entries.Keys !! RowAt(table, p).entries.Keys
    ensures forall k <- Extra(matched, table, p, s).entries :: HasKey(matched, k) && k in RowAt(table, s).entries
              && Extra(matched, table, p, s).entries[k] == RowAt(table, s).entries[k]
  {
    MissingFacts(matched, RowAt(table, p));
    RestrictFacts(RowAt(table, s), Missing(matched, RowAt(table, p)));
  }

  ghost function BestComplement(matched: seq<Requirement>, table: StoreTable, p: StoreCode): Option<StoreCode>
    requires DistinctKeys(matched)
  {
    TopOf(table.order, {p}, ComplementRank(matched, table, p))
  }

  /** The basket of primary `p` with complement `c`. */
  function Combo(matched: seq<Requirement>, table: StoreTable, p: StoreCode, c: Option<StoreCode>): Basket
    requires DistinctKeys(matched)
  {
    match c
    case None => RowAt(table, p)
    case Some(s) =>
      ExtraIsValid(matched, table, p, s);
      var extra := Extra(matched, table, p, s);
      Join(RowAt(table, p), extra.order, extra.entries)
  }

  lemma JoinExtra(matched: seq<Requirement>, table: StoreTable, p: StoreCode, s: StoreCode)
    requires DistinctKeys(matched) && RowAt(table, p).Valid()
    ensures Extra(matched, table, p, s).Valid()
    ensures var b := Combo(matched, table, p, Some(s));
      && b.Valid()
      && b.Values() == RowAt(table, p).Values() + Extra(matched, table, p, s).Values()
      && b.entries.Keys == RowAt(table, p).entries.Keys + Extra(matched, table, p, s).entries.Keys
      && (forall k <- b.entries ::
            if k in RowAt(table, p).entries then b.entries[k] == RowAt(table, p).entries[k]
            else k in RowAt(table, s).entries && b.entries[k] == RowAt(table, s).entries[k])
  {
    ExtraIsValid(matched, table, p, s);
    JoinFacts(RowAt(table, p), Extra(matched, table, p, s));
  }

  ghost predicate Qualifies(matched: seq<Requirement>, table: StoreTable, p: StoreCode) {
    p in table.entries && |table.entries[p].order| >= CoverageBar(|matched|)
  }

  /** `c` adds as much coverage to `p` as any store can; there is none when no store adds anything. */
  ghost predicate MaximalComplement(
    matched: seq<Requirement>, table: StoreTable, p: StoreCode, c: Option<StoreCode>)
  {
    match c
    case None => forall s <- table.entries :: s != p ==> |Extra(matched, table, p, s).order| == 0
    case Some(t) =>
      && t in table.entries && t != p && |Extra(matched, table, p, t).order| > 0
      && forall s <- table.entries :: s != p ==>
           |Extra(matched, table, p, s).order| <= |Extra(matched, table, p, t).order|
  }

  lemma BestComplementIsMaximal(matched: seq<Requirement>, table: StoreTable, p: StoreCode)
    requires DistinctKeys(matched) && table.Valid()
    ensures MaximalComplement(matched, table, p, BestComplement(matched, table, p))
  {
    var rank := ComplementRank(matched, table, p);
    var i := TopOfIsFirst(table.order, {p}, rank);
    var best := BestComplement(matched, table, p);
    forall s | s in table.entries && s != p
      ensures match best
        case None => |Extra(matched, table, p, s).order| == 0
        case Some(t) => |Extra(matched, table, p, s).order| <= |Extra(matched, table, p, t).order|
    {
      var j :| 0 <= j < |table.order| && table.order[j] == s;
      assert rank(s).gain == |Extra(matched, table, p, s).order|;
      if best.Some? {
        assert !Beats(rank(table.order[j]), rank(table.order[i]));
      }
    }
    if best.Some? {
      assert rank(best.value).gain == |Extra(matched, table, p, best.value).order|;
    }
  }

  // ---- what a combination costs ----

  lemma RowAllAt(
    matched: seq<Requirement>, offers: OfferBook, table: StoreTable, stores: StoreCode -> StoreTerms, s: StoreCode)
    requires DistinctKeys(matched) && IsStoreTable(table, matched, offers) && FromStores(offers, stores)
    ensures RowAt(table, s).Valid() && AllAt(RowAt(table, s).Values(), s, stores(s))
    ensures forall sub :: RowAt(table, s).order != [] ==>
              DeliveryForSubtotal(sub, RowAt(table, s)) == DeliveryFee(stores(s), sub)
  {
    RowFacts(matched, offers, s);
    var row := RowAt(table, s);
    assert row == Row(matched, offers, s);
    PickAllFacts(matched, CheapestPick(offers, Some({s})));
    forall k | k in row.entries
      ensures TermsOf(row.entries[k].offer) == stores(s)
    {
      var m :| 0 <= m < |matched| && matched[m].key == k;
      CheapestOfIsFirstLeast(matched[m], OffersFor(offers, k), Some({s}));
      var j :| BoughtAt(matched[m], OffersFor(offers, k), j, row.entries[k]);
      assert TermsOf(offers[k][j]) == stores(offers[k][j].storeCode);
    }
    var vs := row.Values();
    forall i | 0 <= i < |vs|
      ensures vs[i].offer.storeCode == s && TermsOf(vs[i].offer) == stores(s)
    {
      assert vs[i] == row.entries[row.order[i]];
    }
  }

  lemma ExtraAllAt(
    matched: seq<Requirement>, offers: OfferBook, table: StoreTable, stores: StoreCode -> StoreTerms,
    p: StoreCode, s: StoreCode)
    requires DistinctKeys(matched) && IsStoreTable(table, matched, offers) && FromStores(offers, stores)
    ensures Extra(matched, table, p, s).Valid()
    ensures AllAt(Extra(matched, table, p, s).Values(), s, stores(s))
  {
    ExtraIsValid(matched, table, p, s);
    RowAllAt(matched, offers, table, stores, s);
    var row, extra := RowAt(table, s), Extra(matched, table, p, s);
    forall i | 0 <= i < |extra.order|
      ensures extra.Values()[i].offer.storeCode == s && TermsOf(extra.Values()[i].offer) == stores(s)
    {
      var k := extra.order[i];
      assert extra.Values()[i] == row.entries[k];
      var j :| 0 <= j < |row.order| && row.order[j] == k;
      assert row.Values()[j] == row.entries[k];
    }
  }

  /** Subtotal plus delivery when everything `p` stocks is bought there. */
  ghost function PrimaryGrand(table: StoreTable, stores: StoreCode -> StoreTerms, p: StoreCode): int
    requires RowAt(table, p).Valid()
  {
    var subtotal := TotalCost(RowAt(table, p).Values());
    subtotal + DeliveryFee(stores(p), subtotal)
  }

  /** The two fee computations agree: a combination costs its primary plus its complement's score. */
  lemma ComboGrand(
    matched: seq<Requirement>, offers: OfferBook, table: StoreTable, stores: StoreCode -> StoreTerms,
    p: StoreCode, c: Option<StoreCode>)
    requires DistinctKeys(matched) && IsStoreTable(table, matched, offers) && FromStores(offers, stores)
    requires p in table.entries && MaximalComplement(matched, table, p, c)
    ensures RowAt(table, p).Valid() && Combo(matched, table, p, c).Valid()
    ensures GrandOf(Combo(matched, table, p, c).Values()) ==
            PrimaryGrand(table, stores, p) + (if c.None? then 0 else ComplementRank(matched, table, p)(c.value).cost)
    ensures StoresOf(Combo(matched, table, p, c).Values()) == if c.None? then [p] else [p, c.value]
  {
    RowAllAt(matched, offers, table, stores, p);
    assert RowAt(table, p) == Row(matched, offers, p);
    var xs := RowAt(table, p).Values();
    if c.None? {
      GrandAtOneStore(xs, p, stores(p));
    } else {
      var s := c.value;
      RowAllAt(matched, offers, table, stores, s);
      assert RowAt(table, s) == Row(matched, offers, s);
      ExtraIsValid(matched, table, p, s);
      ExtraAllAt(matched, offers, table, stores, p, s);
      JoinExtra(matched, table, p, s);
      GrandAtTwoStores(xs, p, stores(p), Extra(matched, table, p, s).Values(), s, stores(s));
    }
  }

  // ---- the choice of primary ----

  function Candidates(table: StoreTable, order: seq<StoreCode>, bar: nat): seq<StoreCode> {
    if order == [] then []
    else
      var before, s := Candidates(table, order[..|order| - 1], bar), order[|order| - 1];
      if |RowAt(table, s).order| >= bar then before + [s] else before
  }

  lemma {:induction false} CandidatesFacts(table: StoreTable, order: seq<StoreCode>, bar: nat)
    ensures forall s :: s in Candidates(table, order, bar) <==> s in order && |RowAt(table, s).order| >= bar
  {
    if order != [] {
      CandidatesFacts(table, order[..|order| - 1], bar);
    }
  }

  lemma ComboIsValid(matched: seq<Requirement>, table: StoreTable, p: StoreCode, c: Option<StoreCode>)
    requires DistinctKeys(matched) && ValidTable(table)
    ensures Combo(matched, table, p, c).Valid()
  {
    if c.Some? {
      JoinExtra(matched, table, p, c.value);
    }
  }

  function ComboTotal(matched: seq<Requirement>, table: StoreTable, p: StoreCode, c: Option<StoreCode>): int
    requires DistinctKeys(matched) && ValidTable(table)
  {
    ComboIsValid(matched, table, p, c);
    GrandOf(Combo(matched, table, p, c).Values())
  }

  /** The grand total each primary reaches with the complement chosen for it. */
  ghost function PrimaryCost(matched: seq<Requirement>, table: StoreTable): StoreCode -> int
    requires DistinctKeys(matched) && ValidTable(table)
  {
    (p: StoreCode) => ComboTotal(matched, table, p, BestComplement(matched, table, p))
  }

  ghost function Qualifying(matched: seq<Requirement>, table: StoreTable): seq<StoreCode> {
    Candidates(table, table.order, CoverageBar(|matched|))
  }

  ghost predicate IsDelivery(
    reqs: seq<Requirement>, offers: OfferBook, table: StoreTable, primary: Option<StoreCode>, b: Basket)
  {
    var matched := Matched(reqs, offers);
    && DistinctKeys(matched)
    && IsStoreTable(table, matched, offers)
    && ValidTable(table)
    && primary == LeastOf(Qualifying(matched, table), PrimaryCost(matched, table))
    && b == match primary
         case Some(p) => Combo(matched, table, p, BestComplement(matched, table, p))
         case None => PickAll(matched, CheapestPick(offers, None))
  }

  // ---- the loops ----

  /** One key more to cover. */
  lemma RestrictStep(comp: Basket, wanted: seq<Key>, i: nat)
    requires DistinctOrder(wanted) && i < |wanted|
    ensures var before, after := Restrict(comp, wanted[..i]), Restrict(comp, wanted[..i + 1]);
      && before.Valid() && after.Valid()
      && if wanted[i] in comp.entries then
           after == before.Set(wanted[i], comp.entries[wanted[i]])
           && TotalCost(after.Values()) == TotalCost(before.Values()) + comp.entries[wanted[i]].costCents
         else after == before
  {
    PrefixStep(wanted, i);
    RestrictFacts(comp, wanted[..i]);
    RestrictFacts(comp, wanted[..i + 1]);
    if wanted[i] in comp.entries {
      var before := Restrict(comp, wanted[..i]);
      assert wanted[i] !in before.entries;
      SetAppends(before, wanted[i], comp.entries[wanted[i]]);
      TotalCostAppend(before.Values(), comp.entries[wanted[i]]);
    }
  }

  method CoveredBy(comp: Basket, uncoveredKeys: seq<Key>) returns (covered: Basket, cost: int)
    requires DistinctOrder(uncoveredKeys)
    ensures covered == Restrict(comp, uncoveredKeys)
    ensures covered.Valid() && cost == TotalCost(covered.Values())
  {
    covered, cost := Empty(), 0;
    for i := 0 to |uncoveredKeys|
      invariant covered == Restrict(comp, uncoveredKeys[..i])
      invariant covered.Valid() && cost == TotalCost(covered.Values())
    {
      var key := uncoveredKeys[i];
      RestrictStep(comp, uncoveredKeys, i);
      if key in comp.entries {
        covered := covered.Set(key, comp.entries[key]);
        cost := cost + comp.entries[key].costCents;
      }
    }
    FullPrefix(uncoveredKeys);
  }

  /** What one store would add to the primary, and at what cost with delivery. */
  method ScoreComplement(
    matched: seq<Requirement>, table: StoreTable, p: StoreCode, s: StoreCode, uncoveredKeys: seq<Key>)
    returns (covered: Basket, score: int)
    requires DistinctKeys(matched) && uncoveredKeys == Missing(matched, RowAt(table, p))
    ensures covered == Extra(matched, table, p, s)
    ensures ComplementRank(matched, table, p)(s) == Rank(|covered.order|, score)
  {
    MissingFacts(matched, RowAt(table, p));
    var cost;
    covered, cost := CoveredBy(RowAt(table, s), uncoveredKeys);
    score := cost + DeliveryForSubtotal(cost, RowAt(table, s));
  }

  /** The complementary store for one primary, as the inner sweep finds it. */
  method ChooseComplement(matched: seq<Requirement>, table: StoreTable, p: StoreCode)
    returns (best: Option<StoreCode>, extra: Basket)
    requires DistinctKeys(matched)
    ensures best == BestComplement(matched, table, p)
    ensures best.Some? ==> extra == Extra(matched, table, p, best.value)
  {
    best, extra := None, Empty();
    var uncoveredKeys := Missing(matched, RowAt(table, p));
    var bestScore := 0;
    ghost var rank := ComplementRank(matched, table, p);
    for i := 0 to |table.order|
      invariant best == TopOf(table.order[..i], {p}, rank)
      invariant best.Some? ==> extra == Extra(matched, table, p, best.value)
      invariant best.Some? ==> rank(best.value) == Rank(|extra.order|, bestScore)
    {
      var s := table.order[i];
      TopOfStep(table.order, {p}, rank, i);
      if s != p {
        var covered, score := ScoreComplement(matched, table, p, s, uncoveredKeys);
        if |covered.order| > 0
           && (best.None? || |covered.order| > |extra.order|
               || (|covered.order| == |extra.order| && score < bestScore)) {
          best, extra, bestScore := Some(s), covered, score;
        }
      }
    }
    FullPrefix(table.order);
  }

  /** One primary with the complement chosen for it, and their grand total. */
  method TryPrimary(matched: seq<Requirement>, table: StoreTable, p: StoreCode) returns (b: Basket, grand: int)
    requires DistinctKeys(matched) && ValidTable(table)
    ensures b == Combo(matched, table, p, BestComplement(matched, table, p))
    ensures grand == PrimaryCost(matched, table)(p)
  {
    var comp, extra := ChooseComplement(matched, table, p);
    b := RowAt(table, p);
    if comp.Some? {
      ExtraIsValid(matched, table, p, comp.value);
      for i := 0 to |extra.order|
        invariant b == Join(RowAt(table, p), extra.order[..i], extra.entries)
      {
        PrefixStep(extra.order, i);
        b := b.Set(extra.order[i], extra.entries[extra.order[i]]);
      }
      FullPrefix(extra.order);
    }
    ComboIsValid(matched, table, p, comp);
    grand := GrandTotal(b);
  }

  /** The cheapest primary of a nonempty list of candidates. */
  method BestPrimary(matched: seq<Requirement>, table: StoreTable, candidates: seq<StoreCode>)
    returns (bestAssignments: Basket, ghost primary: StoreCode)
    requires DistinctKeys(matched) && ValidTable(table) && candidates != []
    ensures LeastOf(candidates, PrimaryCost(matched, table)) == Some(primary)
    ensures bestAssignments == Combo(matched, table, primary, BestComplement(matched, table, primary))
  {
    var bestGrand;
    bestAssignments, bestGrand := TryPrimary(matched, table, candidates[0]);
    primary := candidates[0];
    ghost var cost := PrimaryCost(matched, table);
    assert candidates[..1][..0] == [];
    for i := 1 to |candidates|
      invariant LeastOf(candidates[..i], cost) == Some(primary)
      invariant bestAssignments == Combo(matched, table, primary, BestComplement(matched, table, primary))
      invariant bestGrand == cost(primary)
    {
      PrefixStep(candidates, i);
      var b, grand := TryPrimary(matched, table, candidates[i]);
      if grand < bestGrand {
        bestGrand, bestAssignments, primary := grand, b, candidates[i];
      }
    }
    FullPrefix(candidates);
  }

  method AssignDelivery(reqs: seq<Requirement>, offers: OfferBook)
    returns (assignments: Basket, ghost table: StoreTable, ghost primary: Option<StoreCode>)
    requires DistinctKeys(reqs)
    ensures IsDelivery(reqs, offers, table, primary, assignments)
  {
    var matched := Matched(reqs, offers);
    MatchedFacts(reqs, offers);
    if |matched| == 0 {
      return Empty(), Empty(), None;
    }
    var storeOffers := CheapestPerStore(matched, offers);
    TableIsValid(storeOffers, matched, offers);
    table := storeOffers;
    var candidates := Candidates(storeOffers, storeOffers.order, CoverageBar(|matched|));
    if |candidates| == 0 {
      primary := None;
      assignments := AssignCheapest(matched, offers, None);
    } else {
      ghost var p;
      assignments, p := BestPrimary(matched, storeOffers, candidates);
      primary := Some(p);
    }
  }
}
