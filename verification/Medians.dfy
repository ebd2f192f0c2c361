/** The median of the prices in a group of submissions, and the submissions that agree with it. */
module Medians {
  import opened Sequences

  const CONSENSUS_MIN_SUBMISSIONS: nat := 3

  // ---- sorting prices ----

  function Insert(sorted: seq<int>, p: int): seq<int> {
    if sorted == [] || sorted[|sorted| - 1] <= p then sorted + [p]
    else Insert(sorted[..|sorted| - 1], p) + [sorted[|sorted| - 1]]
  }

  function Sort(prices: seq<int>): (r: seq<int>)
    ensures |r| == |prices|
  {
    if prices == [] then []
    else
      var init := Sort(prices[..|prices| - 1]);
      InsertLength(init, prices[|prices| - 1]);
      Insert(init, prices[|prices| - 1])
  }

  lemma SortSnoc(prices: seq<int>, p: int)
    ensures Sort(prices + [p]) == Insert(Sort(prices), p)
  {
    AppendInit(prices, p);
  }

  lemma InsertPast(s: seq<int>, p: int, q: int)
    requires p < q
    ensures Insert(s + [q], p) == Insert(s, p) + [q]
  {
    AppendInit(s, q);
  }

  ghost predicate Sorted(s: seq<int>) {
    forall i, j :: 0 <= i <= j < |s| ==> s[i] <= s[j]
  }

  /** How many of the numbers lie in [lo, hi]. */
  ghost function CountIn(s: seq<int>, lo: int, hi: int): nat {
    if s == [] then 0
    else CountIn(s[..|s| - 1], lo, hi) + if lo <= s[|s| - 1] <= hi then 1 else 0
  }

  lemma {:induction false} InsertLength(s: seq<int>, p: int)
    ensures |Insert(s, p)| == |s| + 1
  {
    if s != [] && s[|s| - 1] > p {
      InsertLength(s[..|s| - 1], p);
    }
  }

  lemma {:induction false} InsertCount(s: seq<int>, p: int, lo: int, hi: int)
    ensures CountIn(Insert(s, p), lo, hi) == CountIn(s, lo, hi) + if lo <= p <= hi then 1 else 0
  {
    if s == [] || s[|s| - 1] <= p {
      AppendInit(s, p);
    } else {
      InsertCount(s[..|s| - 1], p, lo, hi);
      AppendInit(Insert(s[..|s| - 1], p), s[|s| - 1]);
    }
  }

  lemma {:induction false} InsertSorted(s: seq<int>, p: int)
    requires Sorted(s)
    ensures Sorted(Insert(s, p))
    ensures Insert(s, p) != []
    ensures Insert(s, p)[|Insert(s, p)| - 1] == if s == [] || s[|s| - 1] <= p then p else s[|s| - 1]
  {
    if s != [] && s[|s| - 1] > p {
      InsertSorted(s[..|s| - 1], p);
    }
  }

  /** Sorting keeps how often every price occurs and leaves none above a later one. */
  lemma {:induction false} SortSorts(prices: seq<int>, lo: int, hi: int)
    ensures Sorted(Sort(prices))
    ensures CountIn(Sort(prices), lo, hi) == CountIn(prices, lo, hi)
  {
    if prices != [] {
      SortSorts(prices[..|prices| - 1], lo, hi);
      InsertSorted(Sort(prices[..|prices| - 1]), prices[|prices| - 1]);
      InsertCount(Sort(prices[..|prices| - 1]), prices[|prices| - 1], lo, hi);
    }
  }

  // ---- the median ----

  /** The two prices in the middle: the same one when their number is odd. */
  function LowerMiddle(prices: seq<int>): int
    requires prices != []
  {
    Sort(prices)[(|prices| - 1) / 2]
  }

  function UpperMiddle(prices: seq<int>): int
    requires prices != []
  {
    Sort(prices)[|prices| / 2]
  }

  /** The middle price, or the mean of the two middle ones with halves rounded up. */
  function Median(prices: seq<int>): int
    requires prices != []
  {
    var sorted := Sort(prices);
    var mid := |prices| / 2;
    if |prices| % 2 == 0 then (sorted[mid - 1] + sorted[mid] + 1) / 2 else sorted[mid]
  }

  /** The median is the rounded mean of the two middle prices, so it lies between them. */
  lemma MedianBetweenMiddles(prices: seq<int>)
    requires prices != []
    ensures LowerMiddle(prices) <= Median(prices) <= UpperMiddle(prices)
    ensures 0 <= (Median(prices) - LowerMiddle(prices)) - (UpperMiddle(prices) - Median(prices)) <= 1
  {
    SortSorts(prices, 0, 0);
    assert LowerMiddle(prices) <= UpperMiddle(prices);
    if |prices| % 2 == 0 {
      assert (|prices| - 1) / 2 == |prices| / 2 - 1;
      RoundedMean(LowerMiddle(prices), UpperMiddle(prices));
    } else {
      assert (|prices| - 1) / 2 == |prices| / 2;
    }
  }

  lemma RoundedMean(a: int, b: int)
    requires a <= b
    ensures a <= (a + b + 1) / 2 <= b
    ensures 0 <= ((a + b + 1) / 2 - a) - (b - (a + b + 1) / 2) <= 1
  {
  }

  lemma {:induction false} SortedCount(s: seq<int>, k: nat, x: int)
    requires Sorted(s) && k < |s|
    ensures s[k] <= x ==> CountIn(s, s[0], x) >= k + 1
    ensures x <= s[k] ==> CountIn(s, x, s[|s| - 1]) >= |s| - k
  {
    CountBelow(s, k, x);
    CountAbove(s, k, x, s[|s| - 1]);
  }

  lemma {:induction false} CountBelow(s: seq<int>, k: nat, x: int)
    requires Sorted(s) && k < |s|
    ensures s[k] <= x ==> CountIn(s, s[0], x) >= k + 1
  {
    if k < |s| - 1 {
      CountBelow(s[..|s| - 1], k, x);
    } else if k > 0 {
      CountBelow(s[..|s| - 1], k - 1, x);
    }
  }

  lemma {:induction false} CountAbove(s: seq<int>, k: nat, x: int, top: int)
    requires Sorted(s) && k < |s| && s[|s| - 1] <= top
    ensures x <= s[k] ==> CountIn(s, x, top) >= |s| - k
  {
    if k < |s| - 1 {
      CountAbove(s[..|s| - 1], k, x, top);
    }
  }

  /** At least half the prices are at most the median, and at least half are at least it. */
  lemma MedianHalves(prices: seq<int>, least: int, greatest: int)
    requires prices != []
    requires forall i :: 0 <= i < |prices| ==> least <= prices[i] <= greatest
    ensures 2 * CountIn(prices, least, Median(prices)) >= |prices|
    ensures 2 * CountIn(prices, Median(prices), greatest) >= |prices|
    ensures least <= Median(prices) <= greatest
  {
    var sorted, m := Sort(prices), Median(prices);
    MedianBetweenMiddles(prices);
    SortSorts(prices, least, m);
    SortSorts(prices, m, greatest);
    SortedWithin(prices, least, greatest);
    SortedCount(sorted, (|prices| - 1) / 2, m);
    SortedCount(sorted, |prices| / 2, m);
    CountWidens(sorted, sorted[0], m, least, m);
    CountWidens(sorted, m, sorted[|sorted| - 1], m, greatest);
  }

  lemma {:induction false} CountWidens(s: seq<int>, lo: int, hi: int, lo': int, hi': int)
    requires lo' <= lo && hi <= hi'
    ensures CountIn(s, lo, hi) <= CountIn(s, lo', hi')
  {
    if s != [] {
      CountWidens(s[..|s| - 1], lo, hi, lo', hi');
    }
  }

  lemma {:induction false} CountAll(s: seq<int>, lo: int, hi: int)
    ensures CountIn(s, lo, hi) <= |s|
    ensures CountIn(s, lo, hi) == |s| <==> forall i :: 0 <= i < |s| ==> lo <= s[i] <= hi
  {
    if s != [] {
      CountAll(s[..|s| - 1], lo, hi);
      assert forall i :: 0 <= i < |s| - 1 ==> s[i] == s[..|s| - 1][i];
    }
  }

  lemma SortedWithin(prices: seq<int>, lo: int, hi: int)
    ensures (forall i :: 0 <= i < |prices| ==> lo <= prices[i] <= hi) <==>
            (forall i :: 0 <= i < |prices| ==> lo <= Sort(prices)[i] <= hi)
  {
    SortSorts(prices, lo, hi);
    CountAll(prices, lo, hi);
    CountAll(Sort(prices), lo, hi);
  }

  /** Sorting neither loses nor invents a price. */
  lemma SortKeepsPrice(prices: seq<int>, p: int)
    ensures p in prices <==> p in Sort(prices)
  {
    SortSorts(prices, p, p);
    CountPresent(prices, p);
    CountPresent(Sort(prices), p);
  }

  lemma {:induction false} CountPresent(s: seq<int>, p: int)
    ensures CountIn(s, p, p) > 0 <==> p in s
  {
    if s != [] {
      CountPresent(s[..|s| - 1], p);
      assert s == s[..|s| - 1] + [s[|s| - 1]];
    }
  }

  // ---- agreeing with the median ----

  function Distance(a: int, b: int): nat {
    if a <= b then b - a else a - b
  }

  /** Within 15% of the median. */
  predicate Agrees(p: int, median: int) {
    20 * Distance(p, median) <= 3 * median
  }

  /** Two prices that agree with the same median differ by at most 30% of it. */
  lemma AgreeingPricesAreClose(p: int, q: int, median: int)
    requires Agrees(p, median) && Agrees(q, median)
    ensures 20 * Distance(p, q) <= 6 * median
  {
  }

  ghost predicate BetweenAgreeing(prices: seq<int>, x: int, median: int) {
    && (exists p <- prices :: Agrees(p, median) && p <= x)
    && (exists p <- prices :: Agrees(p, median) && x <= p)
  }

  /**
   * The median lies between two prices that agree with it exactly when the lower middle
   * price agrees or the upper middle price is the median itself.
   */
  lemma MedianBetweenAgreeingIff(prices: seq<int>)
    requires prices != []
    requires exists p <- prices :: Agrees(p, Median(prices))
    ensures BetweenAgreeing(prices, Median(prices), Median(prices)) <==>
            Agrees(LowerMiddle(prices), Median(prices)) || UpperMiddle(prices) == Median(prices)
  {
    var m, lo, hi := Median(prices), LowerMiddle(prices), UpperMiddle(prices);
    MedianBetweenMiddles(prices);
    SortKeepsPrice(prices, lo);
    SortKeepsPrice(prices, hi);
    if Agrees(lo, m) || hi == m {
      assert Agrees(hi, m);
    } else {
      NoneBelow(prices);
    }
  }

  lemma NoneBelow(prices: seq<int>)
    requires prices != []
    requires !Agrees(LowerMiddle(prices), Median(prices)) && UpperMiddle(prices) != Median(prices)
    ensures forall p <- prices :: Agrees(p, Median(prices)) ==> p > Median(prices)
  {
    MedianBetweenMiddles(prices);
    var sorted, lo, hi := Sort(prices), LowerMiddle(prices), UpperMiddle(prices);
    forall p | p in prices && Agrees(p, Median(prices))
      ensures p > Median(prices)
    {
      SortKeepsPrice(prices, p);
      var i :| 0 <= i < |sorted| && sorted[i] == p;
      SortSorts(prices, p, p);
      assert i <= (|prices| - 1) / 2 ==> p <= lo;
      assert i > (|prices| - 1) / 2 ==> p >= hi;
    }
  }

  lemma SortSix()
    ensures Sort([23, 16, 23, 16, 23, 16]) == [16, 16, 16, 23, 23, 23]
  {
    SortFour();
    SortSnoc([23, 16, 23, 16], 23);
    SortSnoc([23, 16, 23, 16] + [23], 16);
    InsertPast([16, 16], 16, 23);
    InsertPast([16, 16, 23], 16, 23);
    InsertPast([16, 16, 23, 23], 16, 23);
    assert [23, 16, 23, 16, 23, 16] == [23, 16, 23, 16] + [23] + [16];
  }

  lemma SortFour()
    ensures Sort([23, 16, 23, 16]) == [16, 16, 23, 23]
  {
    SortSnoc([], 23);
    SortSnoc([23], 16);
    InsertPast([], 16, 23);
    assert Sort([23] + [16]) == [16, 23];
    SortSnoc([23] + [16], 23);
    SortSnoc([23] + [16] + [23], 16);
    InsertPast([16], 16, 23);
    InsertPast([16, 23], 16, 23);
    assert [23, 16, 23, 16] == [23] + [16] + [23] + [16];
  }

  /** Six prices whose median is below every one of the three that agree with it. */
  lemma MedianBelowEveryAgreeing()
    ensures var prices := [23, 16, 23, 16, 23, 16];
      && Median(prices) == 20
      && (forall p <- prices :: Agrees(p, 20) <==> p == 23)
  {
    SortSix();
  }
}
