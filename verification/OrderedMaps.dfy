/** Values that may be absent (the source's `null` and `undefined`). */
module Options {
  datatype Option<+T> = None | Some(value: T)
  {
    function GetOr(default: T): T {
      match this
      case Some(v) => v
      case None => default
    }
  }
}

/**
 * The JavaScript `Map`: a lookup table that remembers the order in which its
 * keys were first inserted. Overwriting a key keeps its place.
 */
module OrderedMaps {
  import opened Sequences
  import opened Options

  datatype OMap<K(==), V> = OMap(order: seq<K>, entries: map<K, V>)
  {
    ghost predicate Valid() {
      && (forall i, j :: 0 <= i < j < |order| ==> order[i] != order[j])
      && (forall i :: 0 <= i < |order| ==> order[i] in entries)
      && (forall k <- entries :: k in order)
    }

    function Set(k: K, v: V): OMap<K, V> {
      OMap(if k in entries then order else order + [k], entries[k := v])
    }

    /** The values in iteration order. */
    function Values(): (vs: seq<V>)
      requires forall i :: 0 <= i < |order| ==> order[i] in entries
      ensures |vs| == |order|
    {
      seq(|order|, i requires 0 <= i < |order| => entries[order[i]])
    }
  }

  function Empty<K(==), V>(): OMap<K, V> {
    OMap([], map[])
  }

  /** Sets `k` when there is a value to set; otherwise changes nothing. */
  function Put<K(==), V>(m: OMap<K, V>, k: K, v: Option<V>): OMap<K, V> {
    match v
    case Some(x) => m.Set(k, x)
    case None => m
  }

  lemma SetKeepsValid<K, V>(m: OMap<K, V>, k: K, v: V)
    requires m.Valid()
    ensures m.Set(k, v).Valid()
  {
    var n := m.Set(k, v);
    forall x | x in n.entries
      ensures x in n.order
    {
      if x == k && k !in m.entries {
        assert n.order[|m.order|] == k;
      } else {
        assert x in m.order;
      }
    }
  }

  lemma SetAppends<K, V>(m: OMap<K, V>, k: K, v: V)
    requires m.Valid() && k !in m.entries
    ensures m.Set(k, v).Valid()
    ensures m.Set(k, v).Values() == m.Values() + [v]
  {
    SetKeepsValid(m, k, v);
    assert m.Set(k, v).Values() == m.Values() + [v];
  }

  /** A second write to a key erases the first one. */
  lemma SetTwice<K, V>(m: OMap<K, V>, k: K, v: V, w: V)
    ensures m.Set(k, v).Set(k, w) == m.Set(k, w)
  {
    assert m.entries[k := v][k := w] == m.entries[k := w];
  }

  /** `m` with the entries of `extra` set one by one, in the given order. */
  function Join<K(==), V>(m: OMap<K, V>, order: seq<K>, extra: map<K, V>): OMap<K, V>
    requires forall i :: 0 <= i < |order| ==> order[i] in extra
  {
    if order == [] then m
    else Join(m, order[..|order| - 1], extra).Set(order[|order| - 1], extra[order[|order| - 1]])
  }

  lemma {:induction false} JoinEntries<K, V>(m: OMap<K, V>, order: seq<K>, extra: map<K, V>)
    requires forall i :: 0 <= i < |order| ==> order[i] in extra && order[i] !in m.entries
    requires forall i, j :: 0 <= i < j < |order| ==> order[i] != order[j]
    ensures Join(m, order, extra).entries.Keys == m.entries.Keys + KeySet(order)
    ensures forall k <- Join(m, order, extra).entries ::
              Join(m, order, extra).entries[k] == if k in m.entries then m.entries[k] else extra[k]
  {
    if order == [] {
    } else {
      var init, k := order[..|order| - 1], order[|order| - 1];
      JoinEntries(m, init, extra);
      assert KeySet(order) == KeySet(init) + {k};
    }
  }

  lemma ValuesSnoc<K, V>(order: seq<K>, extra: map<K, V>)
    requires order != [] && forall i :: 0 <= i < |order| ==> order[i] in extra
    ensures OMap(order, extra).Values()
            == OMap(order[..|order| - 1], extra).Values() + [extra[order[|order| - 1]]]
  {
  }

  lemma {:induction false} JoinValues<K, V>(m: OMap<K, V>, order: seq<K>, extra: map<K, V>)
    requires m.Valid()
    requires forall i :: 0 <= i < |order| ==> order[i] in extra && order[i] !in m.entries
    requires forall i, j :: 0 <= i < j < |order| ==> order[i] != order[j]
    ensures Join(m, order, extra).Valid()
    ensures Join(m, order, extra).Values() == m.Values() + OMap(order, extra).Values()
  {
    if order == [] {
      assert m.Values() + OMap(order, extra).Values() == m.Values();
    } else {
      var init, k := order[..|order| - 1], order[|order| - 1];
      JoinValues(m, init, extra);
      JoinEntries(m, init, extra);
      assert k !in KeySet(init);
      SetAppends(Join(m, init, extra), k, extra[k]);
      ValuesSnoc(order, extra);
      AppendAssociates(m.Values(), OMap(init, extra).Values(), extra[k]);
    }
  }

  /** Joining disjoint maps lists the first map's values, then the second's. */
  lemma JoinFacts<K, V>(m: OMap<K, V>, n: OMap<K, V>)
    requires m.Valid() && n.Valid() && m.entries.Keys !! n.entries.Keys
    ensures Join(m, n.order, n.entries).Valid()
    ensures Join(m, n.order, n.entries).Values() == m.Values() + n.Values()
    ensures Join(m, n.order, n.entries).entries.Keys == m.entries.Keys + n.entries.Keys
    ensures forall k <- Join(m, n.order, n.entries).entries ::
              Join(m, n.order, n.entries).entries[k] == if k in m.entries then m.entries[k] else n.entries[k]
  {
    forall i | 0 <= i < |n.order|
      ensures n.order[i] !in m.entries
    {
      assert n.order[i] in n.entries.Keys;
    }
    JoinValues(m, n.order, n.entries);
    JoinEntries(m, n.order, n.entries);
    RowCount(n, {});
  }

  lemma {:induction false} AtMostLength<K>(s: seq<K>)
    ensures |KeySet(s)| <= |s|
  {
    if s == [] {
      assert KeySet(s) == {};
    } else {
      AtMostLength(s[..|s| - 1]);
      assert KeySet(s) == KeySet(s[..|s| - 1]) + {s[|s| - 1]};
    }
  }

  /** A duplicate-free list drawn from `t` is no longer than `t`. */
  lemma DistinctWithin<K>(s: seq<K>, t: seq<K>)
    requires forall i, j :: 0 <= i < j < |s| ==> s[i] != s[j]
    requires forall k <- s :: k in t
    ensures |s| <= |t|
  {
    DistinctCardinality(s);
    AtMostLength(t);
    SubsetCardinality(KeySet(s), KeySet(t));
  }

  lemma {:induction false} DistinctCardinality<K>(s: seq<K>)
    requires forall i, j :: 0 <= i < j < |s| ==> s[i] != s[j]
    ensures |set k | k in s| == |s|
  {
    if s == [] {
    } else {
      var t := s[..|s| - 1];
      DistinctCardinality(t);
      assert (set k | k in s) == (set k | k in t) + {s[|s| - 1]};
    }
  }

  lemma SubsetCardinality<K>(a: set<K>, b: set<K>)
    requires a <= b
    ensures |a| <= |b|
  {
    assert b == a + (b - a);
  }

  // ---- counting the keys that lie in a set ----

  ghost function KeySet<K>(order: seq<K>): set<K> {
    set k | k in order
  }

  function CountWithin<K(==)>(order: seq<K>, wanted: set<K>): nat {
    if order == [] then 0
    else CountWithin(order[..|order| - 1], wanted) + if order[|order| - 1] in wanted then 1 else 0
  }

  lemma {:induction false} CountIsCardinality<K>(order: seq<K>, wanted: set<K>)
    requires forall a, b :: 0 <= a < b < |order| ==> order[a] != order[b]
    ensures CountWithin(order, wanted) == |KeySet(order) * wanted|
  {
    if order == [] {
      assert KeySet(order) * wanted == {};
    } else {
      var init, k := order[..|order| - 1], order[|order| - 1];
      CountIsCardinality(init, wanted);
      assert KeySet(order) == KeySet(init) + {k};
      OneMoreWithin(KeySet(init), k, wanted);
    }
  }

  lemma OneMoreWithin<K>(keys: set<K>, k: K, wanted: set<K>)
    requires k !in keys
    ensures |(keys + {k}) * wanted| == |keys * wanted| + if k in wanted then 1 else 0
  {
    assert (keys + {k}) * wanted == keys * wanted + if k in wanted then {k} else {};
  }

  lemma RowCount<K, V>(m: OMap<K, V>, wanted: set<K>)
    requires m.Valid()
    ensures CountWithin(m.order, wanted) == |m.entries.Keys * wanted|
    ensures KeySet(m.order) == m.entries.Keys
  {
    CountIsCardinality(m.order, wanted);
    assert KeySet(m.order) == m.entries.Keys;
  }
}
