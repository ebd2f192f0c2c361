/**
 * Lists on which greed does badly: two stores sell everything, and CONVENIENCE is lured to
 * m more, for every m that seven store codes allow.
 */
module Halving {
  import opened Sequences
  import opened Options
  import opened BasketTypes
  import opened Convenience
  import opened Results
  import opened Optimizer
  import opened StoreCounts
  import opened Markets

  function Pow2(n: nat): (p: nat)
    ensures p >= 1
  {
    if n == 0 then 1 else 2 * Pow2(n - 1)
  }

  /** 0 for 1, 1 for 2 and 3, 2 for 4 to 7, and so on. */
  function Level(t: nat): nat {
    if t <= 1 then 0 else 1 + Level(t / 2)
  }

  lemma {:induction false} LevelIs(t: nat, j: nat)
    requires t >= 1
    ensures Level(t) == j <==> Pow2(j) <= t < Pow2(j + 1)
    ensures Level(t) <= j <==> t < Pow2(j + 1)
  {
    if t > 1 && j > 0 {
      LevelIs(t / 2, j - 1);
    } else if t > 1 {
      assert Pow2(1) == 2;
    }
  }

  lemma {:induction false} PowGrows(i: nat, j: nat)
    requires i < j
    ensures 2 * Pow2(i) <= Pow2(j)
  {
    if i < j - 1 {
      PowGrows(i, j - 1);
    }
  }

  const LEFT := CODES[0]
  const RIGHT := CODES[1]

  /** The lure of a level. */
  function LureAt(j: nat): StoreCode {
    if 1 <= j <= 5 then CODES[1 + j] else LEFT
  }

  function Side(left: bool): StoreCode {
    if left then LEFT else RIGHT
  }

  /** Item `n` of a side is sold there and, from level 1 on, at its level's lure. */
  function SellersAt(n: nat, left: bool): seq<StoreCode> {
    if 1 <= Level(n) <= 5 then [Side(left), LureAt(Level(n))] else [Side(left)]
  }

  /** Items come in pairs, one for each side, numbered from 1. */
  function NameOf(n: nat, left: bool): string {
    [if left then 'l' else 'r'] + seq(n, _ => 'x')
  }

  function PairNames(n: nat): seq<string> {
    if n == 0 then [] else PairNames(n - 1) + [NameOf(n, true)] + [NameOf(n, false)]
  }

  function PairSellers(name: string): seq<StoreCode> {
    if name == "" then [] else SellersAt(|name| - 1, name[0] == 'l')
  }

  /** The side stores ask twice the price. */
  function SidePrice(c: char): int {
    if c == 'F' || c == 'S' then 200 else 100
  }

  /** How many pairs there are up to level `m`. */
  function PairsTo(m: nat): nat {
    Pow2(m + 1) - 1
  }

  function Halved(m: nat): Market {
    Market(PairNames(PairsTo(m)), PairSellers, SidePrice)
  }

  function ListAt(m: nat): seq<Requirement> {
    List(Halved(m).names)
  }

  function BookAt(m: nat): OfferBook {
    BookOf(Halved(m))
  }

  // ---- names and shelves ----

  lemma SellersOfName(n: nat, left: bool)
    ensures PairSellers(NameOf(n, left)) == SellersAt(n, left)
    ensures NameOf(n, left) != "" && |NameOf(n, left)| == n + 1
  {
  }

  /** Where a name is. */
  function IndexOf(n: nat, left: bool): nat
    requires n >= 1
  {
    2 * (n - 1) + if left then 0 else 1
  }

  lemma {:induction false} NameAt(total: nat, n: nat, left: bool)
    requires 1 <= n <= total
    ensures |PairNames(total)| == 2 * total
    ensures PairNames(total)[IndexOf(n, left)] == NameOf(n, left)
  {
    if n < total {
      NameAt(total - 1, n, left);
    } else if total > 1 {
      NameAt(total - 1, 1, left);
    }
  }

  lemma EveryIndex(i: nat) returns (n: nat, left: bool)
    ensures n >= 1 && i == IndexOf(n, left)
    ensures n == i / 2 + 1
  {
    n, left := i / 2 + 1, i % 2 == 0;
  }

  lemma NamesDiffer(n: nat, left: bool, k: nat, right: bool)
    requires n != k || left != right
    ensures NameOf(n, left) != NameOf(k, right)
  {
    if n == k {
      assert NameOf(n, left)[0] != NameOf(k, right)[0];
    } else {
      assert |NameOf(n, left)| != |NameOf(k, right)|;
    }
  }

  lemma HalvedIsProper(m: nat)
    ensures Proper(Halved(m)) && |Halved(m).names| == 2 * PairsTo(m)
  {
    var total := PairsTo(m);
    var names := PairNames(total);
    NameAt(total, 1, true);
    forall i, j | 0 <= i < j < |names|
      ensures names[i] != names[j]
    {
      var n, left := EveryIndex(i);
      var k, right := EveryIndex(j);
      NameAt(total, n, left);
      NameAt(total, k, right);
      NamesDiffer(n, left, k, right);
    }
    forall i | 0 <= i < |names|
      ensures names[i] != "" && PairSellers(names[i]) != []
    {
      var n, left := EveryIndex(i);
      NameAt(total, n, left);
      SellersOfName(n, left);
    }
  }

  /** An item of the list, and who sells it. */
  lemma ItemAt(m: nat, n: nat, left: bool)
    requires 1 <= n <= PairsTo(m)
    ensures Proper(Halved(m)) && IndexOf(n, left) < |Halved(m).names|
    ensures Halved(m).names[IndexOf(n, left)] == NameOf(n, left)
    ensures Halved(m).sellers(NameOf(n, left)) == SellersAt(n, left)
    ensures Level(n) <= m
  {
    HalvedIsProper(m);
    NameAt(PairsTo(m), n, left);
    SellersOfName(n, left);
    LevelIs(n, m);
  }

  /** Seven stores: two sides and five lures, all different. */
  lemma LuresDiffer(i: nat, j: nat)
    requires 1 <= i <= 5 && 1 <= j <= 5
    ensures LureAt(i) != LEFT && LureAt(i) != RIGHT && LEFT != RIGHT
    ensures LureAt(i) == LureAt(j) <==> i == j
  {
    SevenCodes();
  }

  lemma LureOrSide(s: StoreCode) returns (j: nat)
    requires s in CODES && s != LEFT && s != RIGHT
    ensures 1 <= j <= 5 && s == LureAt(j)
  {
    var i :| 0 <= i < 7 && CODES[i] == s;
    j := i - 1;
  }

  // ---- counting what is new ----

  /** The levels above `top` are taken, and nothing else. */
  ghost predicate TakenDownTo(taken: seq<StoreCode>, m: nat, top: nat) {
    && (forall s <- taken :: exists j :: 1 <= j <= 5 && s == LureAt(j))
    && (forall j :: 1 <= j <= 5 ==> (LureAt(j) in taken <==> top < j <= m))
  }

  lemma TakenSells(taken: seq<StoreCode>, m: nat, top: nat, n: nat, left: bool)
    requires top <= m <= 5 && TakenDownTo(taken, m, top) && Level(n) <= m
    ensures (exists t <- taken :: t in SellersAt(n, left)) <==> top < Level(n)
  {
    var level := Level(n);
    forall t | t in taken
      ensures t in SellersAt(n, left) <==> 1 <= level && t == LureAt(level)
    {
      var i :| 1 <= i <= 5 && t == LureAt(i);
      LuresDiffer(i, i);
    }
    if top < level {
      assert LureAt(level) in taken;
    }
  }

  /** Whether what a store sells is new is read off the shelf. */
  lemma NewOnShelf(market: Market, i: nat, taken: seq<StoreCode>, s: StoreCode)
    requires Proper(market) && i < |market.names|
    ensures var sellers := market.sellers(market.names[i]);
      NewAt(BookOf(market), taken, s)(Key(market.names[i])) <==>
      s in sellers && !exists t <- taken :: t in sellers
  {
    ListFacts(market, i);
  }

  predicate IsNew(n: nat, left: bool, top: nat, s: StoreCode) {
    Level(n) <= top && s in SellersAt(n, left)
  }

  lemma NewItem(m: nat, top: nat, taken: seq<StoreCode>, n: nat, left: bool, s: StoreCode)
    requires top <= m <= 5 && TakenDownTo(taken, m, top) && 1 <= n <= PairsTo(m)
    ensures NewAt(BookAt(m), taken, s)(Key(NameOf(n, left))) <==> IsNew(n, left, top, s)
  {
    ItemAt(m, n, left);
    NewOnShelf(Halved(m), IndexOf(n, left), taken, s);
    TakenSells(taken, m, top, n, left);
  }

  /** How many of a pair are new at store `s`. */
  function Added(n: nat, top: nat, s: StoreCode): nat {
    (if IsNew(n, true, top, s) then 1 else 0) + if IsNew(n, false, top, s) then 1 else 0
  }

  /** How many of 1 to n have at most the given level, and exactly it. */
  function UpTo(n: nat, top: nat): nat {
    if n < Pow2(top + 1) then n else Pow2(top + 1) - 1
  }

  function AtLevel(n: nat, j: nat): nat {
    if n < Pow2(j) then 0 else if n < Pow2(j + 1) then n + 1 - Pow2(j) else Pow2(j)
  }

  lemma AddedAtSide(n: nat, top: nat, s: StoreCode)
    requires n >= 1 && (s == LEFT || s == RIGHT)
    ensures UpTo(n, top) == UpTo(n - 1, top) + Added(n, top, s)
  {
    LevelIs(n, top);
    if 1 <= Level(n) <= 5 {
      LuresDiffer(Level(n), Level(n));
    } else {
      LuresDiffer(1, 1);
    }
  }

  lemma AddedAtLure(n: nat, top: nat, j: nat)
    requires n >= 1 && 1 <= j <= 5
    ensures Added(n, top, LureAt(j)) == if j <= top && Level(n) == j then 2 else 0
    ensures AtLevel(n, j) == AtLevel(n - 1, j) + if Level(n) == j then 1 else 0
  {
    LevelIs(n, j);
    LuresDiffer(j, j);
    if 1 <= Level(n) <= 5 {
      LuresDiffer(Level(n), j);
    }
  }

  lemma AddedElsewhere(n: nat, top: nat, s: StoreCode)
    requires s !in CODES
    ensures Added(n, top, s) == 0
  {
  }

  /** How many new items of the first `n` pairs a store sells. */
  ghost function NewUpTo(m: nat, taken: seq<StoreCode>, n: nat, s: StoreCode): nat {
    CountWhere(List(PairNames(n)), NewAt(BookAt(m), taken, s))
  }

  lemma CountSnoc(reqs: seq<Requirement>, r: Requirement, p: Key -> bool)
    ensures CountWhere(reqs + [r], p) == CountWhere(reqs, p) + if p(r.key) then 1 else 0
  {
    AppendInit(reqs, r);
  }

  lemma CountPair(n: nat, p: Key -> bool)
    requires n >= 1
    ensures CountWhere(List(PairNames(n)), p) ==
            CountWhere(List(PairNames(n - 1)), p)
            + (if p(Key(NameOf(n, true))) then 1 else 0) + (if p(Key(NameOf(n, false))) then 1 else 0)
  {
    var before, l, r := List(PairNames(n - 1)), Item(NameOf(n, true)), Item(NameOf(n, false));
    CountSnoc(before, l, p);
    CountSnoc(before + [l], r, p);
    assert List(PairNames(n)) == before + [l] + [r];
  }

  lemma OneMorePair(m: nat, top: nat, taken: seq<StoreCode>, n: nat, s: StoreCode)
    requires top <= m <= 5 && TakenDownTo(taken, m, top) && 1 <= n <= PairsTo(m)
    ensures NewUpTo(m, taken, n, s) == NewUpTo(m, taken, n - 1, s) + Added(n, top, s)
  {
    CountPair(n, NewAt(BookAt(m), taken, s));
    NewItem(m, top, taken, n, true, s);
    NewItem(m, top, taken, n, false, s);
  }

  lemma {:induction false} NewAtSide(m: nat, top: nat, taken: seq<StoreCode>, n: nat, s: StoreCode)
    requires top <= m <= 5 && TakenDownTo(taken, m, top) && n <= PairsTo(m) && (s == LEFT || s == RIGHT)
    ensures NewUpTo(m, taken, n, s) == UpTo(n, top)
  {
    if n > 0 {
      NewAtSide(m, top, taken, n - 1, s);
      OneMorePair(m, top, taken, n, s);
      AddedAtSide(n, top, s);
    }
  }

  lemma {:induction false} NewAtLure(m: nat, top: nat, taken: seq<StoreCode>, n: nat, j: nat)
    requires top <= m <= 5 && TakenDownTo(taken, m, top) && n <= PairsTo(m) && 1 <= j <= 5
    ensures NewUpTo(m, taken, n, LureAt(j)) == if j <= top then 2 * AtLevel(n, j) else 0
  {
    if n > 0 {
      NewAtLure(m, top, taken, n - 1, j);
      OneMorePair(m, top, taken, n, LureAt(j));
      AddedAtLure(n, top, j);
    }
  }

  lemma {:induction false} NewElsewhere(m: nat, top: nat, taken: seq<StoreCode>, n: nat, s: StoreCode)
    requires top <= m <= 5 && TakenDownTo(taken, m, top) && n <= PairsTo(m) && s !in CODES
    ensures NewUpTo(m, taken, n, s) == 0
  {
    if n > 0 {
      NewElsewhere(m, top, taken, n - 1, s);
      OneMorePair(m, top, taken, n, s);
      AddedElsewhere(n, top, s);
    }
  }

  // ---- the lures in turn ----

  /** From the largest down. */
  function LuresOf(m: nat): seq<StoreCode> {
    seq(m, k requires 0 <= k < m => LureAt(m - k))
  }

  lemma TakenSoFar(m: nat, k: nat)
    requires k <= m <= 5
    ensures TakenDownTo(LuresOf(m)[..k], m, m - k)
  {
    forall s | s in LuresOf(m)[..k]
      ensures exists j :: 1 <= j <= 5 && s == LureAt(j)
    {
      var i :| 0 <= i < k && LuresOf(m)[i] == s;
      assert s == LureAt(m - i);
    }
    forall j | 1 <= j <= 5
      ensures LureAt(j) in LuresOf(m)[..k] <==> m - k < j <= m
    {
      if m - k < j <= m {
        assert LuresOf(m)[..k][m - j] == LureAt(j);
      }
      if LureAt(j) in LuresOf(m)[..k] {
        var i :| 0 <= i < k && LuresOf(m)[i] == LureAt(j);
        LuresDiffer(m - i, j);
      }
    }
  }

  lemma FullLevel(m: nat, j: nat)
    requires j <= m
    ensures AtLevel(PairsTo(m), j) == Pow2(j) && UpTo(PairsTo(m), j) == 2 * Pow2(j) - 1
  {
    if j < m {
      PowGrows(j + 1, m + 1);
    }
  }

  lemma OthersSellLess(m: nat, top: nat, taken: seq<StoreCode>, t: StoreCode)
    requires 1 <= top <= m <= 5 && TakenDownTo(taken, m, top) && t != LureAt(top)
    ensures NewUpTo(m, taken, PairsTo(m), t) < 2 * Pow2(top)
  {
    FullLevel(m, top);
    if t == LEFT || t == RIGHT {
      NewAtSide(m, top, taken, PairsTo(m), t);
    } else if t in CODES {
      var j := LureOrSide(t);
      NewAtLure(m, top, taken, PairsTo(m), j);
      if j < top {
        FullLevel(m, j);
        PowGrows(j, top);
      }
    } else {
      NewElsewhere(m, top, taken, PairsTo(m), t);
    }
  }

  lemma LargestLure(m: nat, top: nat, taken: seq<StoreCode>)
    requires 1 <= top <= m <= 5 && TakenDownTo(taken, m, top)
    ensures SellsMostBeyond(ListAt(m), BookAt(m), taken, LureAt(top))
  {
    NewAtLure(m, top, taken, PairsTo(m), top);
    FullLevel(m, top);
    forall t | t != LureAt(top)
      ensures SoldBeyond(ListAt(m), BookAt(m), taken, t) < 2 * Pow2(top)
    {
      OthersSellLess(m, top, taken, t);
    }
  }

  lemma LuresInTurn(m: nat)
    requires m <= 5
    ensures LureInTurn(ListAt(m), BookAt(m), LuresOf(m))
  {
    forall k | 0 <= k < m
      ensures SellsMostBeyond(ListAt(m), BookAt(m), LuresOf(m)[..k], LuresOf(m)[k])
    {
      TakenSoFar(m, k);
      LargestLure(m, m - k, LuresOf(m)[..k]);
    }
  }

  // ---- cheap lures, needed sides ----

  lemma LureIsCheap(j: nat)
    requires 1 <= j <= 5
    ensures LureAt(j) != LEFT && SidePrice(Initial(LureAt(j))) < SidePrice(Initial(LEFT))
  {
    SevenCodes();
  }

  lemma ShelfUndercuts(market: Market, i: nat, s: StoreCode, t: StoreCode)
    requires Proper(market) && i < |market.names| && s != t
    requires market.sellers(market.names[i]) == [s, t] && market.price(Initial(t)) < market.price(Initial(s))
    ensures UndercutsSomewhere(List(market.names), BookOf(market), t)
  {
    ListFacts(market, i);
    var name := market.names[i];
    PackCost(market, s, name);
    PackCost(market, t, name);
    var os := OffersFor(BookOf(market), Key(name));
    assert os == [Pack(market, s, name), Pack(market, t, name)];
    assert os[1].storeCode == t;
    assert Undercuts(BookOf(market), List(market.names)[i], t);
  }

  lemma SoleSeller(market: Market, i: nat, s: StoreCode)
    requires Proper(market) && i < |market.names| && market.sellers(market.names[i]) == [s]
    ensures Indispensable(List(market.names), BookOf(market), s)
  {
    ListFacts(market, i);
    assert OnlySeller(BookOf(market), List(market.names)[i], s);
  }

  lemma LuresUndercut(m: nat, j: nat)
    requires 1 <= j <= m <= 5
    ensures UndercutsSomewhere(ListAt(m), BookAt(m), LureAt(j))
  {
    PowGrows(j, m + 1);
    LevelIs(Pow2(j), j);
    ItemAt(m, Pow2(j), true);
    LureIsCheap(j);
    ShelfUndercuts(Halved(m), IndexOf(Pow2(j), true), LEFT, LureAt(j));
  }

  lemma LureIndex(m: nat, s: StoreCode) returns (j: nat)
    requires s in LuresOf(m)
    ensures 1 <= j <= m && s == LureAt(j)
  {
    var k :| 0 <= k < m && LuresOf(m)[k] == s;
    j := m - k;
  }

  lemma AllUndercut(m: nat)
    requires m <= 5
    ensures forall s <- LuresOf(m) :: UndercutsSomewhere(ListAt(m), BookAt(m), s)
  {
    forall s | s in LuresOf(m)
      ensures UndercutsSomewhere(ListAt(m), BookAt(m), s)
    {
      var j := LureIndex(m, s);
      LuresUndercut(m, j);
    }
  }

  lemma SideIsNeeded(m: nat, left: bool)
    requires m <= 5
    ensures Indispensable(ListAt(m), BookAt(m), Side(left))
  {
    ItemAt(m, 1, left);
    SoleSeller(Halved(m), IndexOf(1, left), Side(left));
  }

  lemma AllDiffer(m: nat)
    requires m <= 5
    ensures var all := [LEFT, RIGHT] + LuresOf(m); forall x, y :: 0 <= x < y < |all| ==> all[x] != all[y]
  {
    var all := [LEFT, RIGHT] + LuresOf(m);
    SevenCodes();
    forall x, y | 0 <= x < y < |all|
      ensures all[x] != all[y]
    {
      if y >= 2 {
        assert all[y] == LureAt(m - (y - 2));
        if x >= 2 {
          assert all[x] == LureAt(m - (x - 2));
          LuresDiffer(m - (x - 2), m - (y - 2));
        } else {
          LuresDiffer(m - (y - 2), m - (y - 2));
        }
      }
    }
  }

  lemma IsLured(m: nat)
    requires m <= 5
    ensures Lures(ListAt(m), BookAt(m), [LEFT, RIGHT], LuresOf(m))
  {
    LuresInTurn(m);
    SideIsNeeded(m, true);
    SideIsNeeded(m, false);
    AllDiffer(m);
    AllUndercut(m);
  }

  ghost predicate ShelfWithin(sellers: seq<StoreCode>, cover: seq<StoreCode>, all: seq<StoreCode>) {
    (exists s <- cover :: s in sellers) && forall s <- sellers :: s in all
  }

  /** Every shelf has a store of `cover`, and none a store not in `all`. */
  ghost predicate ShelvesWithin(market: Market, cover: seq<StoreCode>, all: seq<StoreCode>) {
    forall i :: 0 <= i < |market.names| ==> ShelfWithin(market.sellers(market.names[i]), cover, all)
  }

  /** What a market's shelves say about covers and sellers. */
  lemma ShelvesCover(market: Market, cover: seq<StoreCode>, all: seq<StoreCode>)
    requires Proper(market) && ShelvesWithin(market, cover, all)
    ensures CoverSells(List(market.names), BookOf(market), cover)
    ensures AllSellers(List(market.names), BookOf(market), all)
  {
    var reqs, offers := List(market.names), BookOf(market);
    forall i, s | 0 <= i < |reqs| && Sells(offers, reqs[i].key, s)
      ensures s in all
    {
      ListFacts(market, i);
      assert ShelfWithin(market.sellers(market.names[i]), cover, all);
    }
    forall i | 0 <= i < |reqs|
      ensures exists c :: 0 <= c < |cover| && Sells(offers, reqs[i].key, cover[c])
    {
      ListFacts(market, i);
      assert ShelfWithin(market.sellers(market.names[i]), cover, all);
      var s :| s in cover && s in market.sellers(market.names[i]);
      var c :| 0 <= c < |cover| && cover[c] == s;
    }
  }

  /** Whoever sells an item is a side or a lure, and its side does. */
  lemma SellersListed(m: nat, i: nat)
    requires m <= 5 && i < 2 * PairsTo(m)
    ensures i < |Halved(m).names|
    ensures ShelfWithin(Halved(m).sellers(Halved(m).names[i]), [LEFT, RIGHT], [LEFT, RIGHT] + LuresOf(m))
  {
    var n, left := EveryIndex(i);
    ItemAt(m, n, left);
    assert Side(left) in [LEFT, RIGHT] && Side(left) in SellersAt(n, left);
    if Level(n) >= 1 {
      assert LuresOf(m)[m - Level(n)] == LureAt(Level(n));
    }
  }

  lemma AllWithin(m: nat)
    requires m <= 5
    ensures ShelvesWithin(Halved(m), [LEFT, RIGHT], [LEFT, RIGHT] + LuresOf(m))
  {
    HalvedIsProper(m);
    forall i | 0 <= i < |Halved(m).names|
      ensures ShelfWithin(Halved(m).sellers(Halved(m).names[i]), [LEFT, RIGHT], [LEFT, RIGHT] + LuresOf(m))
    {
      SellersListed(m, i);
    }
  }

  lemma IsCovered(m: nat)
    requires m <= 5
    ensures DistinctKeys(ListAt(m))
    ensures CoverSells(ListAt(m), BookAt(m), [LEFT, RIGHT])
    ensures AllSellers(ListAt(m), BookAt(m), [LEFT, RIGHT] + LuresOf(m))
  {
    HalvedIsProper(m);
    DistinctList(Halved(m));
    AllWithin(m);
    ShelvesCover(Halved(m), [LEFT, RIGHT], [LEFT, RIGHT] + LuresOf(m));
  }

  /**
   * For every m up to 5, as many as seven stores allow, two stores sell all of this list
   * and CONVENIENCE buys it at m + 2.
   */
  lemma GreedyIsNotMinimal(
    m: nat, reqs: seq<Requirement>, offers: OfferBook, b: Basket, baseline: Option<real>, res: OptimizationResult)
    requires m <= 5 && reqs == ListAt(m) && offers == BookAt(m)
    requires ResultOf(CONVENIENCE, reqs, offers, b, baseline, res)
    ensures Proper(Halved(m)) && res.storeCount == m + 2 && CoverSells(reqs, offers, [LEFT, RIGHT])
  {
    HalvedIsProper(m);
    IsLured(m);
    IsCovered(m);
    LuresAreExtra(reqs, offers, b, baseline, res, [LEFT, RIGHT], LuresOf(m));
  }
}
