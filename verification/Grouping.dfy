/** Grouping a basket by store, delivery fees, and what the groups add up to. */
module Grouping {
  import opened Sequences
  import opened Options
  import opened OrderedMaps
  import opened BasketTypes

  datatype Group = Group(info: StoreTerms, itemCount: nat, subtotalCents: int, deliveryCents: int)

  /** The store's delivery fee, waived from its free-delivery minimum on. */
  function DeliveryFee(terms: StoreTerms, subtotalCents: int): int {
    if terms.freeDeliveryMinCents.Some? && subtotalCents >= terms.freeDeliveryMinCents.value then 0
    else terms.deliveryFeeCents
  }

  // ---- what is bought at one store ----

  function CountAt(lines: seq<Assignment>, s: StoreCode): nat {
    if lines == [] then 0
    else CountAt(lines[..|lines| - 1], s) + if lines[|lines| - 1].offer.storeCode == s then 1 else 0
  }

  function SubtotalAt(lines: seq<Assignment>, s: StoreCode): int {
    if lines == [] then 0
    else
      var a := lines[|lines| - 1];
      SubtotalAt(lines[..|lines| - 1], s) + if a.offer.storeCode == s then a.costCents else 0
  }

  /** The terms on the first line bought at `s`. */
  function FirstTermsAt(lines: seq<Assignment>, s: StoreCode): Option<StoreTerms> {
    if lines == [] then None
    else
      var a, before := lines[|lines| - 1], FirstTermsAt(lines[..|lines| - 1], s);
      if before.None? && a.offer.storeCode == s then Some(TermsOf(a.offer)) else before
  }

  function GroupAt(lines: seq<Assignment>, s: StoreCode, delivered: bool): Option<Group> {
    match FirstTermsAt(lines, s)
    case None => None
    case Some(terms) =>
      var subtotal := SubtotalAt(lines, s);
      Some(Group(terms, CountAt(lines, s), subtotal, if delivered then DeliveryFee(terms, subtotal) else 0))
  }

  function StoresOf(lines: seq<Assignment>): seq<StoreCode> {
    if lines == [] then []
    else
      var before, s := StoresOf(lines[..|lines| - 1]), lines[|lines| - 1].offer.storeCode;
      if s in before then before else before + [s]
  }

  lemma LineAppended(lines: seq<Assignment>, a: Assignment, s: StoreCode)
    ensures var t := a.offer.storeCode;
      && CountAt(lines + [a], s) == CountAt(lines, s) + (if t == s then 1 else 0)
      && SubtotalAt(lines + [a], s) == SubtotalAt(lines, s) + (if t == s then a.costCents else 0)
      && FirstTermsAt(lines + [a], s) ==
           (if FirstTermsAt(lines, s).None? && t == s then Some(TermsOf(a.offer)) else FirstTermsAt(lines, s))
      && StoresOf(lines + [a]) == (if t in StoresOf(lines) then StoresOf(lines) else StoresOf(lines) + [t])
  {
    AppendInit(lines, a);
  }

  lemma {:induction false} StoresOfFacts(lines: seq<Assignment>)
    ensures forall i, j :: 0 <= i < j < |StoresOf(lines)| ==> StoresOf(lines)[i] != StoresOf(lines)[j]
    ensures forall s :: s in StoresOf(lines) <==> FirstTermsAt(lines, s).Some?
    ensures forall i :: 0 <= i < |lines| ==> lines[i].offer.storeCode in StoresOf(lines)
    ensures forall s <- StoresOf(lines) :: exists i :: 0 <= i < |lines| && lines[i].offer.storeCode == s
  {
    if lines != [] {
      var init := lines[..|lines| - 1];
      StoresOfFacts(init);
      forall s | s in StoresOf(lines)
        ensures exists i :: 0 <= i < |lines| && lines[i].offer.storeCode == s
      {
        if s in StoresOf(init) {
          var i :| 0 <= i < |init| && init[i].offer.storeCode == s;
          assert lines[i].offer.storeCode == s;
        } else {
          assert lines[|lines| - 1].offer.storeCode == s;
        }
      }
    }
  }

  // ---- sums over stores ----

  function SumSubtotals(stores: seq<StoreCode>, lines: seq<Assignment>): int {
    if stores == [] then 0
    else SumSubtotals(stores[..|stores| - 1], lines) + SubtotalAt(lines, stores[|stores| - 1])
  }

  function SumCounts(stores: seq<StoreCode>, lines: seq<Assignment>): nat {
    if stores == [] then 0
    else SumCounts(stores[..|stores| - 1], lines) + CountAt(lines, stores[|stores| - 1])
  }

  lemma {:induction false} OneMoreLine(stores: seq<StoreCode>, lines: seq<Assignment>)
    requires forall i, j :: 0 <= i < j < |stores| ==> stores[i] != stores[j]
    requires lines != []
    ensures var init, a := lines[..|lines| - 1], lines[|lines| - 1];
      var here := a.offer.storeCode in stores;
      && SumSubtotals(stores, lines) == SumSubtotals(stores, init) + (if here then a.costCents else 0)
      && SumCounts(stores, lines) == SumCounts(stores, init) + (if here then 1 else 0)
  {
    if stores != [] {
      OneMoreLine(stores[..|stores| - 1], lines);
    }
  }

  /** Conservation: split over stores that include every store used, the money and the items all reappear. */
  lemma {:induction false} GroupsConserve(stores: seq<StoreCode>, lines: seq<Assignment>)
    requires forall i, j :: 0 <= i < j < |stores| ==> stores[i] != stores[j]
    requires forall i :: 0 <= i < |lines| ==> lines[i].offer.storeCode in stores
    ensures SumSubtotals(stores, lines) == TotalCost(lines)
    ensures SumCounts(stores, lines) == |lines|
  {
    if lines == [] {
      NothingBought(stores);
    } else {
      GroupsConserve(stores, lines[..|lines| - 1]);
      OneMoreLine(stores, lines);
    }
  }

  lemma {:induction false} NothingBought(stores: seq<StoreCode>)
    ensures SumSubtotals(stores, []) == 0 && SumCounts(stores, []) == 0
  {
    if stores != [] {
      NothingBought(stores[..|stores| - 1]);
    }
  }

  // ---- the grand total ----

  /** Subtotal plus delivery at one store. */
  function StoreGrand(lines: seq<Assignment>, s: StoreCode): int {
    var subtotal := SubtotalAt(lines, s);
    match FirstTermsAt(lines, s)
    case Some(terms) => subtotal + DeliveryFee(terms, subtotal)
    case None => subtotal
  }

  function SumGrands(stores: seq<StoreCode>, lines: seq<Assignment>): int {
    if stores == [] then 0
    else SumGrands(stores[..|stores| - 1], lines) + StoreGrand(lines, stores[|stores| - 1])
  }

  function GrandOf(lines: seq<Assignment>): int {
    SumGrands(StoresOf(lines), lines)
  }

  /** Every line is bought at `s`, on the store's own terms. */
  ghost predicate AllAt(lines: seq<Assignment>, s: StoreCode, terms: StoreTerms) {
    forall i :: 0 <= i < |lines| ==> lines[i].offer.storeCode == s && TermsOf(lines[i].offer) == terms
  }

  lemma {:induction false} AllAtFacts(lines: seq<Assignment>, s: StoreCode, terms: StoreTerms, other: StoreCode)
    requires AllAt(lines, s, terms)
    ensures StoresOf(lines) == if lines == [] then [] else [s]
    ensures SubtotalAt(lines, other) == if other == s then TotalCost(lines) else 0
    ensures FirstTermsAt(lines, other) == if other == s && lines != [] then Some(terms) else None
  {
    if lines != [] {
      AllAtFacts(lines[..|lines| - 1], s, terms, other);
    }
  }

  /** A basket bought at one store pays for its lines and one delivery. */
  lemma GrandAtOneStore(lines: seq<Assignment>, s: StoreCode, terms: StoreTerms)
    requires AllAt(lines, s, terms) && lines != []
    ensures StoresOf(lines) == [s]
    ensures GrandOf(lines) == TotalCost(lines) + DeliveryFee(terms, TotalCost(lines))
  {
    AllAtFacts(lines, s, terms, s);
    assert [s][..0] == [];
    assert SumGrands([], lines) == 0;
    assert SumGrands([s], lines) == StoreGrand(lines, s);
  }

  lemma {:induction false} JoinedLines(xs: seq<Assignment>, ys: seq<Assignment>, s: StoreCode)
    ensures SubtotalAt(xs + ys, s) == SubtotalAt(xs, s) + SubtotalAt(ys, s)
    ensures FirstTermsAt(xs + ys, s) ==
            if FirstTermsAt(xs, s).Some? then FirstTermsAt(xs, s) else FirstTermsAt(ys, s)
  {
    if ys == [] {
      assert xs + ys == xs;
    } else {
      var init, a := ys[..|ys| - 1], ys[|ys| - 1];
      JoinedLines(xs, init, s);
      assert xs + ys == (xs + init) + [a];
      LineAppended(xs + init, a, s);
    }
  }

  lemma {:induction false} JoinedStores(xs: seq<Assignment>, s: StoreCode, ys: seq<Assignment>, t: StoreCode)
    requires StoresOf(xs) == [s] && s != t
    requires forall i :: 0 <= i < |ys| ==> ys[i].offer.storeCode == t
    ensures StoresOf(xs + ys) == if ys == [] then [s] else [s, t]
  {
    if ys == [] {
      assert xs + ys == xs;
    } else {
      var init, a := ys[..|ys| - 1], ys[|ys| - 1];
      JoinedStores(xs, s, init, t);
      assert xs + ys == (xs + init) + [a];
      LineAppended(xs + init, a, t);
    }
  }

  /** Two stores pay for their lines and one delivery each. */
  lemma GrandAtTwoStores(
    xs: seq<Assignment>, s: StoreCode, sTerms: StoreTerms, ys: seq<Assignment>, t: StoreCode, tTerms: StoreTerms)
    requires AllAt(xs, s, sTerms) && AllAt(ys, t, tTerms) && s != t && xs != [] && ys != []
    ensures StoresOf(xs + ys) == [s, t]
    ensures GrandOf(xs + ys) == TotalCost(xs) + DeliveryFee(sTerms, TotalCost(xs))
                                + TotalCost(ys) + DeliveryFee(tTerms, TotalCost(ys))
  {
    AllAtFacts(xs, s, sTerms, s);
    AllAtFacts(xs, s, sTerms, t);
    AllAtFacts(ys, t, tTerms, s);
    AllAtFacts(ys, t, tTerms, t);
    JoinedStores(xs, s, ys, t);
    JoinedLines(xs, ys, s);
    JoinedLines(xs, ys, t);
    SumOverTwo(s, t, xs + ys);
  }

  lemma SumOverTwo(s: StoreCode, t: StoreCode, lines: seq<Assignment>)
    ensures SumGrands([s], lines) == StoreGrand(lines, s)
    ensures SumGrands([s, t], lines) == StoreGrand(lines, s) + StoreGrand(lines, t)
  {
    assert [s, t][..1] == [s];
    assert [s][..0] == [];
    assert SumGrands([], lines) == 0;
  }

  // ---- the loops ----

  ghost predicate IsGrouping(byStore: OMap<StoreCode, Group>, lines: seq<Assignment>, delivered: set<StoreCode>) {
    && byStore.Valid()
    && byStore.order == StoresOf(lines)
    && forall s <- byStore.entries :: Some(byStore.entries[s]) == GroupAt(lines, s, s in delivered)
  }

  function GroupOf(byStore: OMap<StoreCode, Group>, offer: Offer): Group {
    if offer.storeCode in byStore.entries then byStore.entries[offer.storeCode] else Group(TermsOf(offer), 0, 0, 0)
  }

  lemma {:induction false} FirstVisit(lines: seq<Assignment>, s: StoreCode)
    requires FirstTermsAt(lines, s).None?
    ensures CountAt(lines, s) == 0 && SubtotalAt(lines, s) == 0
  {
    if lines != [] {
      FirstVisit(lines[..|lines| - 1], s);
    }
  }

  /** How one more line changes the group of store `s`. */
  lemma GroupAppended(lines: seq<Assignment>, a: Assignment, s: StoreCode)
    ensures GroupAt(lines + [a], s, false) ==
            if a.offer.storeCode != s then GroupAt(lines, s, false)
            else match GroupAt(lines, s, false)
              case None => Some(Group(TermsOf(a.offer), 1, a.costCents, 0))
              case Some(g) => Some(Group(g.info, g.itemCount + 1, g.subtotalCents + a.costCents, 0))
  {
    LineAppended(lines, a, s);
    if FirstTermsAt(lines, s).None? {
      FirstVisit(lines, s);
    }
  }

  lemma GroupStep(byStore: OMap<StoreCode, Group>, lines: seq<Assignment>, a: Assignment, g: Group)
    requires IsGrouping(byStore, lines, {})
    requires var old_ := GroupOf(byStore, a.offer);
      g == Group(old_.info, old_.itemCount + 1, old_.subtotalCents + a.costCents, 0)
    ensures IsGrouping(byStore.Set(a.offer.storeCode, g), lines + [a], {})
  {
    var s := a.offer.storeCode;
    var after := byStore.Set(s, g);
    SetKeepsValid(byStore, s, g);
    LineAppended(lines, a, s);
    UngroupedStore(byStore, lines, s);
    forall t | t in after.entries
      ensures Some(after.entries[t]) == GroupAt(lines + [a], t, false)
    {
      GroupAppended(lines, a, t);
    }
  }

  lemma UngroupedStore(byStore: OMap<StoreCode, Group>, lines: seq<Assignment>, s: StoreCode)
    requires IsGrouping(byStore, lines, {})
    ensures s in StoresOf(lines) <==> s in byStore.entries
    ensures s !in byStore.entries ==> GroupAt(lines, s, false).None?
  {
    StoresOfFacts(lines);
    assert s in byStore.order <==> s in byStore.entries;
  }

  method GroupByStore(assignments: Basket) returns (byStore: OMap<StoreCode, Group>)
    requires assignments.Valid()
    ensures IsGrouping(byStore, assignments.Values(), byStore.entries.Keys)
  {
    byStore := Empty();
    var lines := assignments.Values();
    for i := 0 to |lines|
      invariant IsGrouping(byStore, lines[..i], {})
    {
      var a := lines[i];
      var group := GroupOf(byStore, a.offer);
      group := Group(group.info, group.itemCount + 1, group.subtotalCents + a.costCents, group.deliveryCents);
      GroupStep(byStore, lines[..i], a, group);
      PrefixGrow(lines, i);
      byStore := byStore.Set(a.offer.storeCode, group);
    }
    FullPrefix(lines);
    byStore := AddDeliveries(byStore, lines);
  }

  lemma DeliverStep(
    byStore: OMap<StoreCode, Group>, lines: seq<Assignment>, delivered: set<StoreCode>, s: StoreCode)
    requires IsGrouping(byStore, lines, delivered) && s in byStore.entries && s !in delivered
    ensures var g := byStore.entries[s];
      IsGrouping(byStore.Set(s, g.(deliveryCents := DeliveryFee(g.info, g.subtotalCents))), lines, delivered + {s})
  {
    var g := byStore.entries[s];
    SetKeepsValid(byStore, s, g.(deliveryCents := DeliveryFee(g.info, g.subtotalCents)));
  }

  lemma NextKey(order: seq<StoreCode>, i: nat)
    requires i < |order| && forall a, b :: 0 <= a < b < |order| ==> order[a] != order[b]
    ensures order[i] !in KeySet(order[..i])
    ensures KeySet(order[..i + 1]) == KeySet(order[..i]) + {order[i]}
  {
    PrefixGrow(order, i);
  }

  method AddDeliveries(groups: OMap<StoreCode, Group>, ghost lines: seq<Assignment>)
    returns (byStore: OMap<StoreCode, Group>)
    requires IsGrouping(groups, lines, {})
    ensures IsGrouping(byStore, lines, byStore.entries.Keys)
  {
    byStore := groups;
    for i := 0 to |groups.order|
      invariant byStore.order == groups.order
      invariant IsGrouping(byStore, lines, KeySet(groups.order[..i]))
    {
      var s := groups.order[i];
      NextKey(groups.order, i);
      DeliverStep(byStore, lines, KeySet(groups.order[..i]), s);
      var group := byStore.entries[s];
      var waived := group.info.freeDeliveryMinCents.Some?
                    && group.subtotalCents >= group.info.freeDeliveryMinCents.value;
      group := group.(deliveryCents := if waived then 0 else group.info.deliveryFeeCents);
      byStore := byStore.Set(s, group);
    }
    FullPrefix(groups.order);
    assert KeySet(groups.order) == byStore.entries.Keys;
  }

  method GrandTotal(assignments: Basket) returns (total: int)
    requires assignments.Valid()
    ensures total == GrandOf(assignments.Values())
  {
    var byStore := GroupByStore(assignments);
    ghost var lines := assignments.Values();
    total := 0;
    for i := 0 to |byStore.order|
      invariant total == SumGrands(byStore.order[..i], lines)
    {
      PrefixStep(byStore.order, i);
      var group := byStore.entries[byStore.order[i]];
      total := total + group.subtotalCents + group.deliveryCents;
    }
    FullPrefix(byStore.order);
  }
}
