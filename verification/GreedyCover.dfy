/**
 * Store selection of the CONVENIENCE strategy: stores are taken one at a time,
 * each adding the most uncovered requirements, the cheapest among equals.
 */
module GreedyCover {
  import opened Sequences
  import opened Options
  import opened OrderedMaps
  import opened BasketTypes
  import opened StoreTables
  import opened Ranking
  import SetCover

  ghost predicate ValidTable(table: StoreTable) {
    table.Valid() && forall s <- table.entries :: table.entries[s].Valid()
  }

  lemma TableIsValid(table: StoreTable, reqs: seq<Requirement>, offers: OfferBook)
    requires DistinctKeys(reqs) && IsStoreTable(table, reqs, offers)
    ensures ValidTable(table)
  {
    forall s | s in table.entries
      ensures table.entries[s].Valid()
    {
      RowFacts(reqs, offers, s);
      assert RowAt(table, s) == Row(reqs, offers, s);
    }
  }

  /** The requirement keys each store can supply. */
  ghost function Stock(table: StoreTable): StoreCode -> set<Key> {
    (s: StoreCode) => RowAt(table, s).entries.Keys
  }

  /** Cost of the keys in `order` that lie in `wanted`. */
  function CostWithin(entries: map<Key, Assignment>, order: seq<Key>, wanted: set<Key>): int
    requires forall i :: 0 <= i < |order| ==> order[i] in entries
  {
    if order == [] then 0
    else
      var k := order[|order| - 1];
      CostWithin(entries, order[..|order| - 1], wanted) + if k in wanted then entries[k].costCents else 0
  }

  ghost function Gain(table: StoreTable, s: StoreCode, uncovered: set<Key>): nat {
    SetCover.Gain(Stock(table), s, uncovered)
  }

  /** What taking a store would add: uncovered keys covered, and their cost. */
  ghost function Ranks(table: StoreTable, uncovered: set<Key>): StoreCode -> Rank
    requires ValidTable(table)
  {
    (s: StoreCode) =>
      Rank(Gain(table, s, uncovered), CostWithin(RowAt(table, s).entries, RowAt(table, s).order, uncovered))
  }

  ghost predicate GreedyPick(table: StoreTable, taken: seq<StoreCode>, uncovered: set<Key>, s: StoreCode)
    requires ValidTable(table)
  {
    TopOf(table.order, KeySet(taken), Ranks(table, uncovered)) == Some(s)
  }

  ghost function Remaining(table: StoreTable, keys: set<Key>, taken: seq<StoreCode>): set<Key> {
    SetCover.Remaining(Stock(table), keys, taken)
  }

  /** A run of the selection loop: every store taken was the pick of its moment. */
  ghost predicate PickRun(table: StoreTable, keys: set<Key>, taken: seq<StoreCode>)
    requires ValidTable(table)
  {
    taken == [] ||
    var init := taken[..|taken| - 1];
    PickRun(table, keys, init) && GreedyPick(table, init, Remaining(table, keys, init), taken[|taken| - 1])
  }

  /** When the skipped stores gain nothing, the sweep finds the best of all stores. */
  lemma TopHasBestGain(table: StoreTable, skip: set<StoreCode>, left: set<Key>, s: StoreCode, t: StoreCode)
    requires ValidTable(table)
    requires forall u <- skip :: Gain(table, u, left) == 0
    requires TopOf(table.order, skip, Ranks(table, left)) == Some(s)
    ensures 0 < Gain(table, s, left) && Gain(table, t, left) <= Gain(table, s, left)
  {
    var rank := Ranks(table, left);
    var i := TopOfIsFirst(table.order, skip, rank);
    if t in table.entries {
      var j :| 0 <= j < |table.order| && table.order[j] == t;
      assert t !in skip ==> !Beats(rank(table.order[j]), rank(table.order[i]));
    } else {
      assert Stock(table)(t) * left == {};
    }
  }

  /** Scanning only the untaken stores still finds the best of all stores. */
  lemma PickHasBestGain(
    table: StoreTable, keys: set<Key>, taken: seq<StoreCode>, s: StoreCode, t: StoreCode)
    requires ValidTable(table)
    requires GreedyPick(table, taken, Remaining(table, keys, taken), s)
    ensures 0 < Gain(table, s, Remaining(table, keys, taken))
    ensures Gain(table, t, Remaining(table, keys, taken)) <= Gain(table, s, Remaining(table, keys, taken))
  {
    SetCover.RemainingFacts(Stock(table), keys, taken);
    TopHasBestGain(table, KeySet(taken), Remaining(table, keys, taken), s, t);
  }

  lemma {:induction false} PickRunIsGreedy(table: StoreTable, keys: set<Key>, taken: seq<StoreCode>)
    requires ValidTable(table) && PickRun(table, keys, taken)
    ensures SetCover.GreedyRun(Stock(table), keys, taken)
  {
    if taken != [] {
      var init, last := taken[..|taken| - 1], taken[|taken| - 1];
      PickRunIsGreedy(table, keys, init);
      var left := Remaining(table, keys, init);
      forall t
        ensures 0 < SetCover.Gain(Stock(table), last, left)
        ensures SetCover.Gain(Stock(table), t, left) <= SetCover.Gain(Stock(table), last, left)
      {
        PickHasBestGain(table, keys, init, last, t);
      }
    }
  }

  // ---- the loop ----

  /** What one store would add: how many uncovered keys, and their cost. */
  method Evaluate(row: Basket, uncovered: set<Key>) returns (count: nat, cost: int)
    requires row.Valid()
    ensures count == |row.entries.Keys * uncovered|
    ensures cost == CostWithin(row.entries, row.order, uncovered)
  {
    count, cost := 0, 0;
    for i := 0 to |row.order|
      invariant count == CountWithin(row.order[..i], uncovered)
      invariant cost == CostWithin(row.entries, row.order[..i], uncovered)
    {
      var key := row.order[i];
      PrefixStep(row.order, i);
      if key in uncovered {
        count := count + 1;
        cost := cost + row.entries[key].costCents;
      }
    }
    FullPrefix(row.order);
    RowCount(row, uncovered);
  }

  /** The counters hold the favourite's rank; no favourite means no coverage yet. */
  ghost predicate Tracks(rank: StoreCode -> Rank, best: Option<StoreCode>, count: int, cost: int) {
    if best.None? then count == 0 else count > 0 && rank(best.value) == Rank(count, cost)
  }

  /** Comparing the next store with the counters is comparing it with the favourite. */
  lemma SweepStep(
    order: seq<StoreCode>, skip: set<StoreCode>, rank: StoreCode -> Rank, i: nat, best: Option<StoreCode>,
    cost: int, bestCount: int, bestCost: int)
    requires i < |order| && best == TopOf(order[..i], skip, rank) && Tracks(rank, best, bestCount, bestCost)
    requires order[i] !in skip ==> rank(order[i]).cost == cost
    ensures var s := order[i];
      var count := rank(s).gain;
      TopOf(order[..i + 1], skip, rank) ==
      if s !in skip && (count > bestCount || (count == bestCount && count > 0 && cost < bestCost)) then Some(s)
      else best
  {
    TopOfStep(order, skip, rank, i);
  }

  /** One sweep over the stores for the best one not yet taken. */
  method BestStore(table: StoreTable, taken: seq<StoreCode>, uncovered: set<Key>)
    returns (bestStore: Option<StoreCode>)
    requires ValidTable(table)
    ensures bestStore == TopOf(table.order, KeySet(taken), Ranks(table, uncovered))
  {
    bestStore := None;
    var bestCount, bestCost := 0, 0; // bestCost counts only once bestCount > 0
    ghost var rank, skip := Ranks(table, uncovered), KeySet(taken);
    for i := 0 to |table.order|
      invariant bestStore == TopOf(table.order[..i], skip, rank)
      invariant Tracks(rank, bestStore, bestCount, bestCost)
    {
      var s := table.order[i];
      if s in taken {
        SweepStep(table.order, skip, rank, i, bestStore, 0, bestCount, bestCost);
      } else {
        var count, cost := Evaluate(table.entries[s], uncovered);
        SweepStep(table.order, skip, rank, i, bestStore, cost, bestCount, bestCost);
        if count > bestCount || (count == bestCount && count > 0 && cost < bestCost) {
          bestStore, bestCount, bestCost := Some(s), count, cost;
        }
      }
    }
    FullPrefix(table.order);
  }

  /** Taking the pick extends the run and uncovers strictly less. */
  lemma ExtendRun(table: StoreTable, keys: set<Key>, taken: seq<StoreCode>, uncovered: set<Key>, s: StoreCode)
    requires ValidTable(table) && PickRun(table, keys, taken)
    requires uncovered == Remaining(table, keys, taken) && GreedyPick(table, taken, uncovered, s)
    ensures PickRun(table, keys, taken + [s])
    ensures Remaining(table, keys, taken + [s]) == uncovered - KeySet(RowAt(table, s).order)
    ensures uncovered - KeySet(RowAt(table, s).order) < uncovered
  {
    AppendInit(taken, s);
    PickHasBestGain(table, keys, taken, s, s);
    assert KeySet(RowAt(table, s).order) == Stock(table)(s);
    var k :| k in Stock(table)(s) * uncovered;
  }

  ghost predicate Stocked(table: StoreTable, k: Key) {
    exists j :: 0 <= j < |table.order| && k in RowAt(table, table.order[j]).entries
  }

  /** While something is uncovered, some untaken store still has a gain. */
  lemma SomeStoreLeft(table: StoreTable, keys: set<Key>, taken: seq<StoreCode>)
    requires ValidTable(table)
    requires forall k <- keys :: Stocked(table, k)
    requires Remaining(table, keys, taken) != {}
    ensures TopOf(table.order, KeySet(taken), Ranks(table, Remaining(table, keys, taken))).Some?
  {
    var left := Remaining(table, keys, taken);
    SetCover.RemainingFacts(Stock(table), keys, taken);
    var k :| k in left;
    var j :| 0 <= j < |table.order| && k in RowAt(table, table.order[j]).entries;
    assert k in Stock(table)(table.order[j]) * left;
    assert Ranks(table, left)(table.order[j]).gain > 0;
    var _ := TopOfIsFirst(table.order, KeySet(taken), Ranks(table, left));
  }

  method SelectStores(table: StoreTable, keys: set<Key>) returns (selected: seq<StoreCode>)
    requires ValidTable(table)
    requires forall k <- keys :: Stocked(table, k)
    ensures PickRun(table, keys, selected)
    ensures Remaining(table, keys, selected) == {}
  {
    selected := [];
    var uncovered := keys;
    while uncovered != {}
      invariant PickRun(table, keys, selected)
      invariant uncovered == Remaining(table, keys, selected)
      decreases uncovered
    {
      var best := BestStore(table, selected, uncovered);
      if best.None? {
        SomeStoreLeft(table, keys, selected);
        assert false; // the source's early exit is never taken
        break;
      }
      ExtendRun(table, keys, selected, uncovered, best.value);
      selected := selected + [best.value];
      uncovered := Delete(uncovered, RowAt(table, best.value).order);
    }
  }

  method Delete(uncovered: set<Key>, order: seq<Key>) returns (left: set<Key>)
    ensures left == uncovered - KeySet(order)
  {
    left := uncovered;
    for i := 0 to |order|
      invariant left == uncovered - KeySet(order[..i])
    {
      PrefixGrow(order, i);
      left := left - {order[i]};
    }
    FullPrefix(order);
  }
}
