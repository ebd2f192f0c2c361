/** The cheapest assignment of every requirement at every store. */
module StoreTables {
  import opened Sequences
  import opened Options
  import opened OrderedMaps
  import opened BasketTypes
  import opened Picking

  type StoreTable = OMap<StoreCode, Basket>

  /** The requirements for which somebody sells something. */
  function Matched(reqs: seq<Requirement>, offers: OfferBook): seq<Requirement> {
    if reqs == [] then []
    else
      var init := Matched(reqs[..|reqs| - 1], offers);
      if OffersFor(offers, reqs[|reqs| - 1].key) != [] then init + [reqs[|reqs| - 1]] else init
  }

  lemma {:induction false} MatchedFacts(reqs: seq<Requirement>, offers: OfferBook)
    ensures forall i :: 0 <= i < |Matched(reqs, offers)| ==>
              Matched(reqs, offers)[i] in reqs && OffersFor(offers, Matched(reqs, offers)[i].key) != []
    ensures forall r <- reqs :: OffersFor(offers, r.key) != [] ==> r in Matched(reqs, offers)
    ensures DistinctKeys(reqs) ==> DistinctKeys(Matched(reqs, offers))
  {
    if reqs != [] {
      var init := reqs[..|reqs| - 1];
      MatchedFacts(init, offers);
      if DistinctKeys(reqs) {
        forall i | 0 <= i < |Matched(init, offers)|
          ensures Matched(init, offers)[i].key != reqs[|reqs| - 1].key
        {
          var j :| 0 <= j < |init| && init[j] == Matched(init, offers)[i];
          assert reqs[j] == init[j];
        }
      }
    }
  }

  lemma {:induction false} PickAllMatched(reqs: seq<Requirement>, offers: OfferBook, pick: Pick)
    requires forall i :: 0 <= i < |reqs| && OffersFor(offers, reqs[i].key) == [] ==> pick(reqs[i]).None?
    ensures PickAll(Matched(reqs, offers), pick) == PickAll(reqs, pick)
  {
    if reqs != [] {
      var init, r := reqs[..|reqs| - 1], reqs[|reqs| - 1];
      PickAllMatched(init, offers, pick);
      if OffersFor(offers, r.key) != [] {
        assert Matched(reqs, offers)[..|Matched(init, offers)|] == Matched(init, offers);
      }
    }
  }

  /** What store `s` sells, each requirement at its cheapest there. */
  function Row(reqs: seq<Requirement>, offers: OfferBook, s: StoreCode): Basket {
    PickAll(reqs, CheapestPick(offers, Some({s})))
  }

  /** Stores in the order in which a walk over the offers meets them. */
  function Meet(seen: seq<StoreCode>, os: seq<Offer>): seq<StoreCode> {
    if os == [] then seen
    else
      var t := Meet(seen, os[..|os| - 1]);
      if os[|os| - 1].storeCode in t then t else t + [os[|os| - 1].storeCode]
  }

  function StoresMet(reqs: seq<Requirement>, offers: OfferBook): seq<StoreCode> {
    if reqs == [] then []
    else Meet(StoresMet(reqs[..|reqs| - 1], offers), OffersFor(offers, reqs[|reqs| - 1].key))
  }

  function RowAt(table: StoreTable, s: StoreCode): Basket {
    if s in table.entries then table.entries[s] else Empty()
  }

  ghost predicate IsStoreTable(table: StoreTable, reqs: seq<Requirement>, offers: OfferBook) {
    && table.Valid()
    && table.order == StoresMet(reqs, offers)
    && (forall s :: RowAt(table, s) == Row(reqs, offers, s))
    && (forall s :: s in table.entries <==> Row(reqs, offers, s).order != [])
  }

  lemma SoldAtStore(r: Requirement, offers: OfferBook, s: StoreCode)
    ensures CheapestPick(offers, Some({s}))(r).Some? <==>
              exists j :: 0 <= j < |OffersFor(offers, r.key)| && OffersFor(offers, r.key)[j].storeCode == s
    ensures CheapestPick(offers, Some({s}))(r).Some? ==>
              CheapestPick(offers, Some({s}))(r).value.offer.storeCode == s
  {
    CheapestOfIsFirstLeast(r, OffersFor(offers, r.key), Some({s}));
  }

  /** `a` is `r` bought at store `s`, where nothing sold for it is cheaper. */
  ghost predicate CheapestHere(r: Requirement, os: seq<Offer>, s: StoreCode, a: Assignment) {
    && (exists j :: BoughtAt(r, os, j, a) && os[j].storeCode == s)
    && (forall j :: 0 <= j < |os| && os[j].storeCode == s ==> a.costCents <= MakeAssignment(r, os[j]).costCents)
  }

  /** Every entry of a row is an offer of its store, at that store's least cost. */
  lemma RowIsCheapest(reqs: seq<Requirement>, offers: OfferBook, s: StoreCode, i: nat)
    requires DistinctKeys(reqs) && i < |reqs| && reqs[i].key in Row(reqs, offers, s).entries
    ensures CheapestHere(reqs[i], OffersFor(offers, reqs[i].key), s, Row(reqs, offers, s).entries[reqs[i].key])
  {
    PickAllFacts(reqs, CheapestPick(offers, Some({s})));
    CheapestOfIsFirstLeast(reqs[i], OffersFor(offers, reqs[i].key), Some({s}));
  }

  /** A row holds exactly the requirements its store sells, all bought there. */
  lemma RowFacts(reqs: seq<Requirement>, offers: OfferBook, s: StoreCode)
    requires DistinctKeys(reqs)
    ensures Row(reqs, offers, s).Valid()
    ensures forall k <- Row(reqs, offers, s).entries ::
              HasKey(reqs, k) && Row(reqs, offers, s).entries[k].offer.storeCode == s
    ensures forall i :: 0 <= i < |reqs| ==>
              (reqs[i].key in Row(reqs, offers, s).entries <==>
               exists j :: 0 <= j < |OffersFor(offers, reqs[i].key)|
                 && OffersFor(offers, reqs[i].key)[j].storeCode == s)
  {
    PickAllFacts(reqs, CheapestPick(offers, Some({s})));
    forall i | 0 <= i < |reqs| {
      SoldAtStore(reqs[i], offers, s);
    }
    forall k | k in Row(reqs, offers, s).entries
      ensures Row(reqs, offers, s).entries[k].offer.storeCode == s
    {
      var i :| 0 <= i < |reqs| && reqs[i].key == k;
      SoldAtStore(reqs[i], offers, s);
    }
  }

  /** The row of `s` midway through requirement `r`, after offers `os`. */
  ghost function PartialRow(done: seq<Requirement>, offers: OfferBook, r: Requirement, os: seq<Offer>, s: StoreCode)
    : Basket
  {
    Put(Row(done, offers, s), r.key, CheapestOf(r, os, Some({s})))
  }

  ghost predicate IsPartialTable(
    table: StoreTable, done: seq<Requirement>, offers: OfferBook, r: Requirement, os: seq<Offer>)
  {
    && table.Valid()
    && table.order == Meet(StoresMet(done, offers), os)
    && (forall s :: RowAt(table, s) == PartialRow(done, offers, r, os, s))
    && (forall s :: s in table.entries <==> PartialRow(done, offers, r, os, s).order != [])
  }

  lemma PartialRowStep(
    done: seq<Requirement>, offers: OfferBook, r: Requirement, os: seq<Offer>, o: Offer, s: StoreCode)
    requires DistinctKeys(done) && !HasKey(done, r.key)
    ensures var before, after := PartialRow(done, offers, r, os, s), PartialRow(done, offers, r, os + [o], s);
      var a := MakeAssignment(r, o);
      && before.Valid()
      && (after.order == [] ==> before.order == [])
      && (o.storeCode != s ==> after == before)
      && (o.storeCode == s ==>
            && after.order != []
            && after == if r.key !in before.entries || a.costCents < before.entries[r.key].costCents
                        then before.Set(r.key, a) else before)
  {
    RowFacts(done, offers, s);
    var row := Row(done, offers, s);
    assert r.key !in row.entries;
    AppendInit(os, o);
    var old_, new_ := CheapestOf(r, os, Some({s})), CheapestOf(r, os + [o], Some({s}));
    if old_.Some? {
      SetKeepsValid(row, r.key, old_.value);
      SetTwice(row, r.key, old_.value, MakeAssignment(r, o));
      assert row.Set(r.key, old_.value).entries[r.key] == old_.value;
    }
  }

  function Improve(perStore: Basket, key: Key, a: Assignment): Basket {
    if key !in perStore.entries || a.costCents < perStore.entries[key].costCents then perStore.Set(key, a)
    else perStore
  }

  lemma TableStep(
    table: StoreTable, done: seq<Requirement>, offers: OfferBook, r: Requirement, os: seq<Offer>, o: Offer)
    requires DistinctKeys(done) && !HasKey(done, r.key)
    requires IsPartialTable(table, done, offers, r, os)
    ensures IsPartialTable(
              table.Set(o.storeCode, Improve(RowAt(table, o.storeCode), r.key, MakeAssignment(r, o))),
              done, offers, r, os + [o])
  {
    var perStore := Improve(RowAt(table, o.storeCode), r.key, MakeAssignment(r, o));
    var after := table.Set(o.storeCode, perStore);
    SetKeepsValid(table, o.storeCode, perStore);
    AppendInit(os, o);
    assert o.storeCode in table.order <==> o.storeCode in table.entries;
    forall s: StoreCode
      ensures RowAt(after, s) == PartialRow(done, offers, r, os + [o], s)
      ensures s in after.entries <==> PartialRow(done, offers, r, os + [o], s).order != []
    {
      PartialRowStep(done, offers, r, os, o, s);
      assert RowAt(table, s) == PartialRow(done, offers, r, os, s);
      assert s in table.entries <==> PartialRow(done, offers, r, os, s).order != [];
    }
  }

  lemma RowComplete(done: seq<Requirement>, offers: OfferBook, r: Requirement, table: StoreTable)
    requires IsPartialTable(table, done, offers, r, OffersFor(offers, r.key))
    ensures IsStoreTable(table, done + [r], offers)
  {
    var all := done + [r];
    assert all[..|done|] == done;
    forall s: StoreCode
      ensures Row(all, offers, s) == PartialRow(done, offers, r, OffersFor(offers, r.key), s)
    {
    }
  }

  lemma RowStart(done: seq<Requirement>, offers: OfferBook, r: Requirement, table: StoreTable)
    requires IsStoreTable(table, done, offers)
    ensures IsPartialTable(table, done, offers, r, [])
  {
  }

  /** One requirement's turn: each of its offers may open or improve its store's row. */
  method StockRequirement(stocked: StoreTable, ghost done: seq<Requirement>, r: Requirement, offers: OfferBook)
    returns (table: StoreTable)
    requires DistinctKeys(done) && !HasKey(done, r.key)
    requires IsStoreTable(stocked, done, offers)
    ensures IsStoreTable(table, done + [r], offers)
  {
    table := stocked;
    var os := OffersFor(offers, r.key);
    RowStart(done, offers, r, table);
    assert os[..0] == [];
    for j := 0 to |os|
      invariant IsPartialTable(table, done, offers, r, os[..j])
    {
      var o := os[j];
      TableStep(table, done, offers, r, os[..j], o);
      PrefixGrow(os, j);
      var perStore := RowAt(table, o.storeCode);
      var a := MakeAssignment(r, o);
      if r.key !in perStore.entries || a.costCents < perStore.entries[r.key].costCents {
        perStore := perStore.Set(r.key, a);
      }
      table := table.Set(o.storeCode, perStore);
    }
    FullPrefix(os);
    RowComplete(done, offers, r, table);
  }

  method CheapestPerStore(reqs: seq<Requirement>, offers: OfferBook) returns (table: StoreTable)
    requires DistinctKeys(reqs)
    ensures IsStoreTable(table, reqs, offers)
  {
    table := Empty();
    for i := 0 to |reqs|
      invariant IsStoreTable(table, reqs[..i], offers)
    {
      PrefixGrow(reqs, i);
      table := StockRequirement(table, reqs[..i], reqs[i], offers);
    }
    FullPrefix(reqs);
  }
}
