/**
 * Choosing one offer per requirement: the CHEAPEST and QUALITY strategies, and
 * the theory of baskets that pick each requirement on its own.
 */
module Picking {
  import opened Sequences
  import opened Options
  import opened OrderedMaps
  import opened BasketTypes

  type Pick = Requirement -> Option<Assignment>

  predicate Allowed(allowed: Option<set<StoreCode>>, s: StoreCode) {
    allowed.None? || s in allowed.value
  }

  /** The first offer of least cost among the allowed stores. */
  function CheapestOf(r: Requirement, os: seq<Offer>, allowed: Option<set<StoreCode>>): Option<Assignment> {
    if os == [] then None else
      var best := CheapestOf(r, os[..|os| - 1], allowed);
      var a := MakeAssignment(r, os[|os| - 1]);
      if !Allowed(allowed, os[|os| - 1].storeCode) then best
      else if best.None? || a.costCents < best.value.costCents then Some(a)
      else best
  }

  function QualityScore(o: Offer): real {
    o.qualityTier as real * 2.0 + o.storeQualityScore
  }

  /** The first offer of greatest score, cheapest among equal scores. */
  function QualityOf(r: Requirement, os: seq<Offer>): Option<Assignment> {
    if os == [] then None else
      var best := QualityOf(r, os[..|os| - 1]);
      var o := os[|os| - 1];
      var a := MakeAssignment(r, o);
      if best.None? || QualityScore(o) > QualityScore(best.value.offer)
         || (QualityScore(o) == QualityScore(best.value.offer) && a.costCents < best.value.costCents)
      then Some(a)
      else best
  }

  /** `a` is the requirement bought at the `i`th offer. */
  ghost predicate BoughtAt(r: Requirement, os: seq<Offer>, i: int, a: Assignment) {
    0 <= i < |os| && a == MakeAssignment(r, os[i])
  }

  /** The `i`th offer is allowed, none allowed is cheaper, and no earlier one as cheap. */
  ghost predicate FirstLeast(r: Requirement, os: seq<Offer>, allowed: Option<set<StoreCode>>, i: int) {
    && 0 <= i < |os|
    && Allowed(allowed, os[i].storeCode)
    && forall j :: 0 <= j < |os| && Allowed(allowed, os[j].storeCode) ==>
         var mine, other := MakeAssignment(r, os[i]).costCents, MakeAssignment(r, os[j]).costCents;
         if j < i then mine < other else mine <= other
  }

  lemma {:induction false} CheapestOfIsFirstLeast(r: Requirement, os: seq<Offer>, allowed: Option<set<StoreCode>>)
    ensures match CheapestOf(r, os, allowed)
      case None => forall j :: 0 <= j < |os| ==> !Allowed(allowed, os[j].storeCode)
      case Some(a) => exists i :: BoughtAt(r, os, i, a) && FirstLeast(r, os, allowed, i)
  {
    if os != [] {
      var init := os[..|os| - 1];
      CheapestOfIsFirstLeast(r, init, allowed);
      var best, before := CheapestOf(r, os, allowed), CheapestOf(r, init, allowed);
      if before.Some? {
        var i :| BoughtAt(r, init, i, before.value) && FirstLeast(r, init, allowed, i);
        var at := if best == before then i else |os| - 1;
        assert BoughtAt(r, os, at, best.value) && FirstLeast(r, os, allowed, at);
      } else if best.Some? {
        assert BoughtAt(r, os, |os| - 1, best.value) && FirstLeast(r, os, allowed, |os| - 1);
      }
    }
  }

  /** The `i`th offer has the greatest score, is cheapest among those, and first among equals. */
  ghost predicate FirstBest(r: Requirement, os: seq<Offer>, i: int) {
    && 0 <= i < |os|
    && forall j :: 0 <= j < |os| ==>
         var mine, other := MakeAssignment(r, os[i]).costCents, MakeAssignment(r, os[j]).costCents;
         || QualityScore(os[j]) < QualityScore(os[i])
         || (QualityScore(os[j]) == QualityScore(os[i]) && if j < i then mine < other else mine <= other)
  }

  lemma {:induction false} QualityOfIsFirstBest(r: Requirement, os: seq<Offer>)
    ensures match QualityOf(r, os)
      case None => os == []
      case Some(a) => exists i :: BoughtAt(r, os, i, a) && FirstBest(r, os, i)
  {
    if os != [] {
      var init := os[..|os| - 1];
      QualityOfIsFirstBest(r, init);
      var best, before := QualityOf(r, os), QualityOf(r, init);
      if before.Some? {
        var i :| BoughtAt(r, init, i, before.value) && FirstBest(r, init, i);
        var at := if best == before then i else |os| - 1;
        assert BoughtAt(r, os, at, best.value) && FirstBest(r, os, at);
      } else {
        assert BoughtAt(r, os, 0, best.value) && FirstBest(r, os, 0);
      }
    }
  }

  // ---- baskets that pick each requirement on its own ----

  function CheapestPick(offers: OfferBook, allowed: Option<set<StoreCode>>): Pick {
    (r: Requirement) => CheapestOf(r, OffersFor(offers, r.key), allowed)
  }

  function QualityPick(offers: OfferBook): Pick {
    (r: Requirement) => QualityOf(r, OffersFor(offers, r.key))
  }

  function PickAll(reqs: seq<Requirement>, pick: Pick): Basket {
    if reqs == [] then Empty()
    else
      var r := reqs[|reqs| - 1];
      Put(PickAll(reqs[..|reqs| - 1], pick), r.key, pick(r))
  }

  ghost predicate HasKey(reqs: seq<Requirement>, key: Key) {
    exists i :: 0 <= i < |reqs| && reqs[i].key == key
  }

  /** A basket of exactly the picked requirements, in requirement order. */
  lemma {:induction false} PickAllFacts(reqs: seq<Requirement>, pick: Pick)
    requires DistinctKeys(reqs)
    ensures var b := PickAll(reqs, pick);
      && b.Valid()
      && (forall k <- b.entries :: HasKey(reqs, k))
      && (forall i :: 0 <= i < |reqs| ==> (reqs[i].key in b.entries <==> pick(reqs[i]).Some?))
      && (forall i :: 0 <= i < |reqs| && pick(reqs[i]).Some? ==> b.entries[reqs[i].key] == pick(reqs[i]).value)
  {
    if reqs != [] {
      var init, r := reqs[..|reqs| - 1], reqs[|reqs| - 1];
      PickAllFacts(init, pick);
      var m := PickAll(init, pick);
      var b := PickAll(reqs, pick);
      if pick(r).Some? {
        SetKeepsValid(m, r.key, pick(r).value);
      }
      forall k | k in b.entries
        ensures HasKey(reqs, k)
      {
        if k in m.entries {
          var i :| 0 <= i < |init| && init[i].key == k;
          assert reqs[i].key == k;
        } else {
          assert reqs[|reqs| - 1].key == k;
        }
      }
      forall i | 0 <= i < |reqs|
        ensures reqs[i].key in b.entries <==> pick(reqs[i]).Some?
        ensures pick(reqs[i]).Some? ==> b.entries[reqs[i].key] == pick(reqs[i]).value
      {
        if i < |init| {
          assert init[i] == reqs[i];
        } else {
          assert r.key !in m.entries;
        }
      }
    }
  }

  /** A requirement that is bought adds its assignment at the end. */
  lemma PickAllSnoc(reqs: seq<Requirement>, pick: Pick)
    requires DistinctKeys(reqs) && reqs != [] && pick(reqs[|reqs| - 1]).Some?
    ensures var init, r := reqs[..|reqs| - 1], reqs[|reqs| - 1];
      && PickAll(init, pick).Valid() && PickAll(reqs, pick).Valid()
      && PickAll(reqs, pick).Values() == PickAll(init, pick).Values() + [pick(r).value]
  {
    var init, r := reqs[..|reqs| - 1], reqs[|reqs| - 1];
    PickAllFacts(init, pick);
    assert r.key !in PickAll(init, pick).entries;
    SetAppends(PickAll(init, pick), r.key, pick(r).value);
  }

  lemma {:induction false} PickAllFull(reqs: seq<Requirement>, pick: Pick)
    requires DistinctKeys(reqs)
    requires forall i :: 0 <= i < |reqs| ==> pick(reqs[i]).Some?
    ensures |PickAll(reqs, pick).order| == |reqs|
  {
    if reqs != [] {
      var init, r := reqs[..|reqs| - 1], reqs[|reqs| - 1];
      PickAllFull(init, pick);
      PickAllFacts(init, pick);
      assert r.key !in PickAll(init, pick).entries;
    }
  }

  function PickedCost(a: Option<Assignment>): int {
    match a
    case Some(x) => x.costCents
    case None => 0
  }

  function PickTotal(reqs: seq<Requirement>, pick: Pick): int {
    if reqs == [] then 0
    else PickTotal(reqs[..|reqs| - 1], pick) + PickedCost(pick(reqs[|reqs| - 1]))
  }

  lemma {:induction false} PickAllTotal(reqs: seq<Requirement>, pick: Pick)
    requires DistinctKeys(reqs)
    ensures PickAll(reqs, pick).Valid()
    ensures TotalCost(PickAll(reqs, pick).Values()) == PickTotal(reqs, pick)
  {
    PickAllFacts(reqs, pick);
    if reqs != [] {
      var init, r := reqs[..|reqs| - 1], reqs[|reqs| - 1];
      PickAllTotal(init, pick);
      if pick(r).Some? {
        PickAllSnoc(reqs, pick);
        TotalCostAppend(PickAll(init, pick).Values(), pick(r).value);
      }
    }
  }

  lemma {:induction false} PickTotalMonotone(reqs: seq<Requirement>, p: Pick, q: Pick)
    requires forall i :: 0 <= i < |reqs| ==> PickedCost(p(reqs[i])) <= PickedCost(q(reqs[i]))
    ensures PickTotal(reqs, p) <= PickTotal(reqs, q)
  {
    if reqs != [] {
      PickTotalMonotone(reqs[..|reqs| - 1], p, q);
    }
  }

  /** `pick` buys one offer for every requirement that has any, and nothing else. */
  ghost predicate BuysOneOffer(reqs: seq<Requirement>, offers: OfferBook, pick: Pick) {
    forall i :: 0 <= i < |reqs| ==>
      var os := OffersFor(offers, reqs[i].key);
      if os == [] then pick(reqs[i]).None?
      else pick(reqs[i]).Some? && exists j :: BoughtAt(reqs[i], os, j, pick(reqs[i]).value)
  }

  /** CHEAPEST has the least item total over every way of buying. */
  lemma CheapestIsOptimal(reqs: seq<Requirement>, offers: OfferBook, pick: Pick)
    requires DistinctKeys(reqs)
    requires BuysOneOffer(reqs, offers, pick)
    ensures PickAll(reqs, pick).Valid() && PickAll(reqs, CheapestPick(offers, None)).Valid()
    ensures TotalCost(PickAll(reqs, CheapestPick(offers, None)).Values()) <= TotalCost(PickAll(reqs, pick).Values())
  {
    var cheapest := CheapestPick(offers, None);
    forall i | 0 <= i < |reqs|
      ensures PickedCost(cheapest(reqs[i])) <= PickedCost(pick(reqs[i]))
    {
      CheapestOfIsFirstLeast(reqs[i], OffersFor(offers, reqs[i].key), None);
    }
    PickTotalMonotone(reqs, cheapest, pick);
    PickAllTotal(reqs, cheapest);
    PickAllTotal(reqs, pick);
  }

  function PickedScore(a: Option<Assignment>): real {
    match a
    case Some(x) => QualityScore(x.offer)
    case None => 0.0
  }

  /** The quality scores of everything picked, added up. */
  function ScoreTotal(reqs: seq<Requirement>, pick: Pick): real {
    if reqs == [] then 0.0
    else ScoreTotal(reqs[..|reqs| - 1], pick) + PickedScore(pick(reqs[|reqs| - 1]))
  }

  /** Requirement by requirement, `p` scores at least as well as `q`, and at no higher cost where they tie. */
  ghost predicate BetterEach(reqs: seq<Requirement>, p: Pick, q: Pick) {
    forall i :: 0 <= i < |reqs| ==>
      var mine, other := p(reqs[i]), q(reqs[i]);
      || PickedScore(other) < PickedScore(mine)
      || (PickedScore(other) == PickedScore(mine) && PickedCost(mine) <= PickedCost(other))
  }

  lemma {:induction false} BetterInTotal(reqs: seq<Requirement>, p: Pick, q: Pick)
    requires BetterEach(reqs, p, q)
    ensures ScoreTotal(reqs, q) <= ScoreTotal(reqs, p)
    ensures ScoreTotal(reqs, q) == ScoreTotal(reqs, p) ==> PickTotal(reqs, p) <= PickTotal(reqs, q)
  {
    if reqs != [] {
      BetterInTotal(reqs[..|reqs| - 1], p, q);
    }
  }

  /**
   * QUALITY has the greatest total score over every way of buying, and the least item
   * total among those of that score.
   */
  lemma QualityIsOptimal(reqs: seq<Requirement>, offers: OfferBook, pick: Pick)
    requires DistinctKeys(reqs)
    requires BuysOneOffer(reqs, offers, pick)
    ensures PickAll(reqs, pick).Valid() && PickAll(reqs, QualityPick(offers)).Valid()
    ensures ScoreTotal(reqs, pick) <= ScoreTotal(reqs, QualityPick(offers))
    ensures ScoreTotal(reqs, pick) == ScoreTotal(reqs, QualityPick(offers)) ==>
              TotalCost(PickAll(reqs, QualityPick(offers)).Values()) <= TotalCost(PickAll(reqs, pick).Values())
  {
    var best := QualityPick(offers);
    forall i | 0 <= i < |reqs|
      ensures var mine, other := best(reqs[i]), pick(reqs[i]);
        || PickedScore(other) < PickedScore(mine)
        || (PickedScore(other) == PickedScore(mine) && PickedCost(mine) <= PickedCost(other))
    {
      QualityOfIsFirstBest(reqs[i], OffersFor(offers, reqs[i].key));
    }
    BetterInTotal(reqs, best, pick);
    PickAllTotal(reqs, best);
    PickAllTotal(reqs, pick);
  }

  lemma PicksBuyOneOffer(reqs: seq<Requirement>, offers: OfferBook)
    ensures BuysOneOffer(reqs, offers, CheapestPick(offers, None))
    ensures BuysOneOffer(reqs, offers, QualityPick(offers))
  {
    forall i | 0 <= i < |reqs|
      ensures var os := OffersFor(offers, reqs[i].key);
        if os == [] then CheapestPick(offers, None)(reqs[i]).None? && QualityPick(offers)(reqs[i]).None?
        else
          && CheapestPick(offers, None)(reqs[i]).Some?
          && QualityPick(offers)(reqs[i]).Some?
          && (exists j :: BoughtAt(reqs[i], os, j, CheapestPick(offers, None)(reqs[i]).value))
          && (exists j :: BoughtAt(reqs[i], os, j, QualityPick(offers)(reqs[i]).value))
    {
      var os := OffersFor(offers, reqs[i].key);
      CheapestOfIsFirstLeast(reqs[i], os, None);
      QualityOfIsFirstBest(reqs[i], os);
      if os != [] {
        assert Allowed(None, os[0].storeCode);
      }
    }
  }

  // ---- the strategies ----

  method AssignCheapest(reqs: seq<Requirement>, offers: OfferBook, allowed: Option<set<StoreCode>>)
    returns (assignments: Basket)
    ensures assignments == PickAll(reqs, CheapestPick(offers, allowed))
  {
    assignments := Empty();
    for i := 0 to |reqs|
      invariant assignments == PickAll(reqs[..i], CheapestPick(offers, allowed))
    {
      var r := reqs[i];
      var os := OffersFor(offers, r.key);
      var best: Option<Assignment> := None;
      for j := 0 to |os|
        invariant best == CheapestOf(r, os[..j], allowed)
      {
        PrefixStep(os, j);
        if Allowed(allowed, os[j].storeCode) {
          var a := MakeAssignment(r, os[j]);
          if best.None? || a.costCents < best.value.costCents {
            best := Some(a);
          }
        }
      }
      FullPrefix(os);
      PrefixStep(reqs, i);
      if best.Some? {
        assignments := assignments.Set(r.key, best.value);
      }
    }
    FullPrefix(reqs);
  }

  method AssignQuality(reqs: seq<Requirement>, offers: OfferBook) returns (assignments: Basket)
    ensures assignments == PickAll(reqs, QualityPick(offers))
  {
    assignments := Empty();
    for i := 0 to |reqs|
      invariant assignments == PickAll(reqs[..i], QualityPick(offers))
    {
      var r := reqs[i];
      var os := OffersFor(offers, r.key);
      var best: Option<Assignment> := None;
      var bestScore: Option<real> := None; // None stands for -Infinity
      for j := 0 to |os|
        invariant best == QualityOf(r, os[..j])
        invariant best.Some? <==> bestScore.Some?
        invariant best.Some? ==> bestScore.value == QualityScore(best.value.offer)
      {
        PrefixStep(os, j);
        var score := QualityScore(os[j]);
        var a := MakeAssignment(r, os[j]);
        if bestScore.None? || score > bestScore.value
           || (score == bestScore.value && best.Some? && a.costCents < best.value.costCents) {
          best := Some(a);
          bestScore := Some(score);
        }
      }
      FullPrefix(os);
      PrefixStep(reqs, i);
      if best.Some? {
        assignments := assignments.Set(r.key, best.value);
      }
    }
    FullPrefix(reqs);
  }
}
