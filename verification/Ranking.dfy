/**
 * Choosing one store out of a sequence of them: by coverage first and cost
 * second, or by cost alone; the earliest among equals.
 */
module Ranking {
  import opened Sequences
  import opened Options

  datatype Rank = Rank(gain: nat, cost: int)

  predicate Beats(a: Rank, b: Rank) {
    a.gain > b.gain || (a.gain == b.gain && a.cost < b.cost)
  }

  /** The choice a single sweep makes, replacing its favourite only when beaten. */
  ghost function TopOf<S>(order: seq<S>, skip: set<S>, rank: S -> Rank): Option<S> {
    if order == [] then None
    else
      var best, s := TopOf(order[..|order| - 1], skip, rank), order[|order| - 1];
      if s in skip || rank(s).gain == 0 then best
      else if best.None? || Beats(rank(s), rank(best.value)) then Some(s)
      else best
  }

  lemma TopOfStep<S>(order: seq<S>, skip: set<S>, rank: S -> Rank, n: nat)
    requires n < |order|
    ensures var best, s := TopOf(order[..n], skip, rank), order[n];
      TopOf(order[..n + 1], skip, rank) ==
      if s in skip || rank(s).gain == 0 then best
      else if best.None? || Beats(rank(s), rank(best.value)) then Some(s)
      else best
  {
    PrefixStep(order, n);
  }

  /** The `i`th candidate gains something, is unbeaten, and is the first such. */
  ghost predicate FirstTop<S>(order: seq<S>, skip: set<S>, rank: S -> Rank, i: int) {
    && 0 <= i < |order| && order[i] !in skip
    && rank(order[i]).gain > 0
    && forall j :: 0 <= j < |order| && order[j] !in skip ==>
         && !Beats(rank(order[j]), rank(order[i]))
         && (j < i ==> Beats(rank(order[i]), rank(order[j])))
  }

  lemma {:induction false} TopOfIsFirst<S>(order: seq<S>, skip: set<S>, rank: S -> Rank) returns (i: int)
    ensures match TopOf(order, skip, rank)
      case None => forall j :: 0 <= j < |order| && order[j] !in skip ==> rank(order[j]).gain == 0
      case Some(s) => FirstTop(order, skip, rank, i) && order[i] == s
  {
    i := 0;
    if order != [] {
      var init, s := order[..|order| - 1], order[|order| - 1];
      i := TopOfIsFirst(init, skip, rank);
      var before := TopOf(init, skip, rank);
      if s !in skip && rank(s).gain > 0 && (before.None? || Beats(rank(s), rank(before.value))) {
        i := |init|;
      }
    }
  }

  /** The choice a single sweep makes when only a strictly lower cost replaces its favourite. */
  ghost function LeastOf<S>(order: seq<S>, cost: S -> int): Option<S> {
    if order == [] then None
    else
      var best, s := LeastOf(order[..|order| - 1], cost), order[|order| - 1];
      if best.None? || cost(s) < cost(best.value) then Some(s) else best
  }

  /** The `i`th candidate is a cheapest one, and the first such. */
  ghost predicate FirstLeastCost<S>(order: seq<S>, cost: S -> int, i: int) {
    && 0 <= i < |order|
    && forall j :: 0 <= j < |order| ==>
         && cost(order[i]) <= cost(order[j])
         && (j < i ==> cost(order[i]) < cost(order[j]))
  }

  lemma {:induction false} LeastOfIsFirst<S>(order: seq<S>, cost: S -> int) returns (i: int)
    ensures match LeastOf(order, cost)
      case None => order == []
      case Some(s) => FirstLeastCost(order, cost, i) && order[i] == s
  {
    i := 0;
    if order != [] {
      var init, s := order[..|order| - 1], order[|order| - 1];
      i := LeastOfIsFirst(init, cost);
      var before := LeastOf(init, cost);
      if before.None? || cost(s) < cost(before.value) {
        i := |init|;
      }
    }
  }
}
