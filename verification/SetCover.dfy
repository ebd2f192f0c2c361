/**
 * Greedy set cover over a family of sets, and how far it can be from the best.
 * `stock(s)` is what member `s` supplies.
 */
module SetCover {
  import opened OrderedMaps

  function H(n: nat): real {
    if n == 0 then 0.0 else H(n - 1) + 1.0 / n as real
  }

  /** `n` copies of `u`, added up. */
  function Times(n: nat, u: real): real {
    if n == 0 then 0.0 else Times(n - 1, u) + u
  }

  lemma {:induction false} TimesIsProduct(n: nat, u: real)
    ensures Times(n, u) == n as real * u
  {
    if n > 0 {
      TimesIsProduct(n - 1, u);
      assert (n - 1) as real * u + u == n as real * u;
    }
  }

  lemma {:induction false} TimesAtMostSum(n: nat, a: nat, b: nat, u: real)
    requires n <= a + b && u > 0.0
    ensures Times(n, u) <= Times(a, u) + Times(b, u)
    decreases a + b
  {
    if a > 0 {
      TimesAtMostSum(if n > 0 then n - 1 else 0, a - 1, b, u);
    } else if b > 0 {
      TimesAtMostSum(if n > 0 then n - 1 else 0, a, b - 1, u);
    }
  }

  lemma ReciprocalAtLeast(a: nat, u: real)
    requires 1 <= a && Times(a, u) <= 1.0
    ensures u <= 1.0 / a as real
  {
    TimesIsProduct(a, u);
    var x, v := a as real, 1.0 / a as real;
    assert x * v == 1.0;
    assert x * (u - v) <= 0.0;
  }

  lemma UnitShare(c: nat) returns (u: real)
    requires 1 <= c
    ensures Times(c, u) == 1.0 && u > 0.0
  {
    u := 1.0 / c as real;
    TimesIsProduct(c, u);
  }

  /** Dropping `d` of `a <= c` harmonic terms loses at least `d` shares of size `1 / c`. */
  lemma {:induction false} HarmonicDrop(a: nat, d: nat, c: nat, u: real)
    requires d <= a <= c && Times(c, u) == 1.0 && u > 0.0
    ensures H(a) - H(a - d) >= Times(d, u)
  {
    if d > 0 {
      HarmonicDrop(a - 1, d - 1, c, u);
      TimesAtMostSum(a, c, 0, u);
      ReciprocalAtLeast(a, u);
    }
  }

  lemma {:induction false} HarmonicMonotone(a: nat, b: nat)
    requires a <= b
    ensures 0.0 <= H(a) <= H(b)
    decreases b
  {
    if a < b {
      HarmonicMonotone(a, b - 1);
    } else if a > 0 {
      HarmonicMonotone(a - 1, a - 1);
    }
  }

  ghost function Gain<S, K>(stock: S -> set<K>, s: S, uncovered: set<K>): nat {
    |stock(s) * uncovered|
  }

  ghost function Remaining<S, K>(stock: S -> set<K>, keys: set<K>, taken: seq<S>): set<K> {
    if taken == [] then keys
    else Remaining(stock, keys, taken[..|taken| - 1]) - stock(taken[|taken| - 1])
  }

  lemma {:induction false} RemainingFacts<S, K>(stock: S -> set<K>, keys: set<K>, taken: seq<S>)
    ensures Remaining(stock, keys, taken) <= keys
    ensures forall s <- taken :: Gain(stock, s, Remaining(stock, keys, taken)) == 0
    ensures forall k <- keys - Remaining(stock, keys, taken) :: exists i :: 0 <= i < |taken| && k in stock(taken[i])
  {
    if taken != [] {
      var init, last := taken[..|taken| - 1], taken[|taken| - 1];
      RemainingFacts(stock, keys, init);
      var before, after := Remaining(stock, keys, init), Remaining(stock, keys, taken);
      forall s | s in taken
        ensures Gain(stock, s, after) == 0
      {
        if s in init {
          assert Gain(stock, s, before) == 0;
          SubsetCardinality(stock(s) * after, stock(s) * before);
        } else {
          assert stock(s) * after == {};
        }
      }
      forall k | k in keys - after
        ensures exists i :: 0 <= i < |taken| && k in stock(taken[i])
      {
        if k in before {
          assert k in stock(taken[|taken| - 1]);
        } else {
          assert k in keys - before;
          var i :| 0 <= i < |init| && k in stock(init[i]);
          assert k in stock(taken[i]);
        }
      }
    }
  }

  /** The members of `cover` together supply every key. */
  ghost predicate Covers<S, K>(stock: S -> set<K>, cover: seq<S>, keys: set<K>) {
    forall k <- keys :: exists i :: 0 <= i < |cover| && k in stock(cover[i])
  }

  ghost function Union<S, K>(stock: S -> set<K>, cover: seq<S>): set<K> {
    if cover == [] then {}
    else Union(stock, cover[..|cover| - 1]) + stock(cover[|cover| - 1])
  }

  lemma {:induction false} InUnion<S, K>(stock: S -> set<K>, cover: seq<S>, i: nat)
    requires i < |cover|
    ensures stock(cover[i]) <= Union(stock, cover)
  {
    if i < |cover| - 1 {
      InUnion(stock, cover[..|cover| - 1], i);
    }
  }

  /** Sum over the cover of the harmonic sum of what each member can still supply. */
  ghost function Potential<S, K>(stock: S -> set<K>, cover: seq<S>, uncovered: set<K>): real {
    if cover == [] then 0.0
    else
      Potential(stock, cover[..|cover| - 1], uncovered) + H(Gain(stock, cover[|cover| - 1], uncovered))
  }

  /** Covering `news` costs one member of the cover its share of the best gain `c`. */
  lemma MemberDrop<K>(supply: set<K>, uncovered: set<K>, news: set<K>, c: nat, u: real)
    requires news <= uncovered && |supply * uncovered| <= c && Times(c, u) == 1.0 && u > 0.0
    ensures H(|supply * uncovered|) - H(|supply * (uncovered - news)|) >= Times(|supply * news|, u)
  {
    var mine, hit := supply * uncovered, supply * news;
    assert supply * (uncovered - news) == mine - hit;
    SubsetCardinality(hit, mine);
    assert |mine - hit| == |mine| - |hit|;
    HarmonicDrop(|mine|, |hit|, c, u);
  }

  lemma {:induction false} PotentialDrop<S, K>(
    stock: S -> set<K>, cover: seq<S>, uncovered: set<K>, news: set<K>, c: nat, u: real)
    requires news <= uncovered && Times(c, u) == 1.0 && u > 0.0
    requires forall i :: 0 <= i < |cover| ==> Gain(stock, cover[i], uncovered) <= c
    ensures Potential(stock, cover, uncovered) - Potential(stock, cover, uncovered - news)
            >= Times(|news * Union(stock, cover)|, u)
  {
    if cover == [] {
      assert news * Union(stock, cover) == {};
    } else {
      var init, s := cover[..|cover| - 1], cover[|cover| - 1];
      PotentialDrop(stock, init, uncovered, news, c, u);
      MemberDrop(stock(s), uncovered, news, c, u);
      var rest, hit := news * Union(stock, init), stock(s) * news;
      assert news * Union(stock, cover) == rest + hit;
      assert |rest + hit| <= |rest| + |hit|;
      TimesAtMostSum(|rest + hit|, |rest|, |hit|, u);
    }
  }

  /** Each greedy choice pays for itself with one unit of potential. */
  lemma GreedyStep<S, K>(stock: S -> set<K>, left: set<K>, s: S, cover: seq<S>)
    requires Gain(stock, s, left) > 0
    requires forall i :: 0 <= i < |cover| ==> Gain(stock, cover[i], left) <= Gain(stock, s, left)
    requires Covers(stock, cover, left)
    ensures Potential(stock, cover, left) - Potential(stock, cover, left - stock(s)) >= 1.0
  {
    var news := stock(s) * left;
    var c := |news|;
    var u := UnitShare(c);
    PotentialDrop(stock, cover, left, news, c, u);
    forall k | k in news
      ensures k in Union(stock, cover)
    {
      var i :| 0 <= i < |cover| && k in stock(cover[i]);
      InUnion(stock, cover, i);
    }
    assert news * Union(stock, cover) == news;
    assert left - news == left - stock(s);
  }

  /** Taking `s` gains something, and no member of the family gains more. */
  ghost predicate BestChoice<S(!new), K>(stock: S -> set<K>, left: set<K>, s: S) {
    && Gain(stock, s, left) > 0
    && forall t :: Gain(stock, t, left) <= Gain(stock, s, left)
  }

  ghost predicate GreedyRun<S(!new), K>(stock: S -> set<K>, keys: set<K>, taken: seq<S>) {
    taken == [] ||
    var init := taken[..|taken| - 1];
    GreedyRun(stock, keys, init) && BestChoice(stock, Remaining(stock, keys, init), taken[|taken| - 1])
  }

  /**
   * Against ANY members that together supply everything, the number taken
   * never exceeds the potential they have lost.
   */
  lemma {:induction false} GreedyBound<S(!new), K>(stock: S -> set<K>, keys: set<K>, taken: seq<S>, cover: seq<S>)
    requires GreedyRun(stock, keys, taken) && Covers(stock, cover, keys)
    ensures |taken| as real + Potential(stock, cover, Remaining(stock, keys, taken))
            <= Potential(stock, cover, keys)
  {
    if taken != [] {
      var init, last := taken[..|taken| - 1], taken[|taken| - 1];
      GreedyBound(stock, keys, init, cover);
      RemainingFacts(stock, keys, init);
      GreedyStep(stock, Remaining(stock, keys, init), last, cover);
    }
  }

  /** The classical yardstick: `k` times the harmonic sum of `n`. */
  function HarmonicBound(k: nat, n: nat): real {
    k as real * H(n)
  }

  lemma {:induction false} PotentialAtMost<S, K>(stock: S -> set<K>, cover: seq<S>, keys: set<K>)
    ensures 0.0 <= Potential(stock, cover, keys) <= HarmonicBound(|cover|, |keys|)
  {
    if cover != [] {
      var init, s := cover[..|cover| - 1], cover[|cover| - 1];
      PotentialAtMost(stock, init, keys);
      SubsetCardinality(stock(s) * keys, keys);
      HarmonicMonotone(|stock(s) * keys|, |keys|);
      var h := H(|keys|);
      assert |init| as real * h + h == |cover| as real * h;
    }
  }

  /** Members that supply at most `d` keys each hold at most H(d) of potential each. */
  lemma {:induction false} PotentialBySize<S, K>(stock: S -> set<K>, cover: seq<S>, keys: set<K>, d: nat)
    requires forall i :: 0 <= i < |cover| ==> Gain(stock, cover[i], keys) <= d
    ensures Potential(stock, cover, keys) <= HarmonicBound(|cover|, d)
  {
    if cover != [] {
      var init, s := cover[..|cover| - 1], cover[|cover| - 1];
      PotentialBySize(stock, init, keys, d);
      HarmonicMonotone(Gain(stock, s, keys), d);
      var h := H(d);
      assert |init| as real * h + h == |cover| as real * h;
    }
  }

  /** The two classical forms of the bound, for a run of any length. */
  lemma GreedyWithinHarmonic<S(!new), K>(stock: S -> set<K>, keys: set<K>, taken: seq<S>, cover: seq<S>)
    requires GreedyRun(stock, keys, taken) && Covers(stock, cover, keys)
    ensures |taken| as real <= Potential(stock, cover, keys)
    ensures |taken| as real <= HarmonicBound(|cover|, |keys|)
  {
    GreedyBound(stock, keys, taken, cover);
    PotentialAtMost(stock, cover, Remaining(stock, keys, taken));
    PotentialAtMost(stock, cover, keys);
  }

  /** Once everything is covered a greedy run has nothing left to choose. */
  lemma {:induction false} StopsWhenCovered<S(!new), K>(stock: S -> set<K>, keys: set<K>, taken: seq<S>, n: nat)
    requires GreedyRun(stock, keys, taken)
    requires n <= |taken| && Remaining(stock, keys, taken[..n]) == {}
    ensures n == |taken|
  {
    if n < |taken| {
      var init := taken[..|taken| - 1];
      assert init[..n] == taken[..n];
      StopsWhenCovered(stock, keys, init, n);
      assert false;
    }
  }

  lemma {:induction false} FirstChoice<S(!new), K>(stock: S -> set<K>, keys: set<K>, taken: seq<S>)
    requires GreedyRun(stock, keys, taken) && taken != []
    ensures BestChoice(stock, keys, taken[0])
  {
    var init := taken[..|taken| - 1];
    if init != [] {
      FirstChoice(stock, keys, init);
    }
  }

  /** Every choice of a run was the best of its moment. */
  lemma {:induction false} ChoiceAt<S(!new), K>(stock: S -> set<K>, keys: set<K>, taken: seq<S>, k: nat)
    requires GreedyRun(stock, keys, taken) && k < |taken|
    ensures BestChoice(stock, Remaining(stock, keys, taken[..k]), taken[k])
  {
    var init := taken[..|taken| - 1];
    if k < |init| {
      ChoiceAt(stock, keys, init, k);
      assert init[..k] == taken[..k];
    } else {
      assert taken[..k] == init;
    }
  }

  /** One member supplying everything ends a greedy run after a single choice. */
  lemma OneSuffices<S(!new), K>(stock: S -> set<K>, keys: set<K>, taken: seq<S>, full: S)
    requires GreedyRun(stock, keys, taken) && Remaining(stock, keys, taken) == {}
    requires keys != {} && keys <= stock(full)
    ensures |taken| == 1 && keys <= stock(taken[0])
  {
    FirstChoice(stock, keys, taken);
    assert stock(full) * keys == keys;
    assert Gain(stock, full, keys) == |keys|;
    var mine := stock(taken[0]) * keys;
    assert |keys - mine| == |keys| - |mine|;
    assert keys - mine == {};
    assert taken[..1][..0] == [];
    assert Remaining(stock, keys, taken[..1]) == keys - stock(taken[0]) == {};
    StopsWhenCovered(stock, keys, taken, 1);
  }
}
