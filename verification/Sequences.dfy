/** Slices a loop over a sequence works through. */
module Sequences {

  lemma PrefixStep<T>(s: seq<T>, i: nat)
    requires i < |s|
    ensures s[..i + 1][..i] == s[..i]
  {
  }

  lemma PrefixGrow<T>(s: seq<T>, i: nat)
    requires i < |s|
    ensures s[..i + 1] == s[..i] + [s[i]]
  {
  }

  lemma FullPrefix<T>(s: seq<T>)
    ensures s[..|s|] == s
  {
  }

  /** Taking the last element off again. */
  lemma AppendInit<T>(s: seq<T>, x: T)
    ensures (s + [x])[..|s|] == s
  {
  }

  lemma AppendAssociates<T>(s: seq<T>, t: seq<T>, x: T)
    ensures s + (t + [x]) == (s + t) + [x]
  {
  }

  lemma PrefixExtend<T>(s: seq<T>, k: nat, n: nat)
    requires k + n <= |s|
    ensures s[..k + n] == s[..k] + s[k..][..n]
  {
  }

  lemma AppendAssociatesAll<T>(s: seq<T>, t: seq<T>, u: seq<T>)
    ensures s + (t + u) == (s + t) + u
  {
  }

  /** The relation holds element by element. */
  ghost predicate Each<A, B, C>(p: (A, B, C) -> bool, s: seq<A>, t: seq<B>, u: seq<C>) {
    && |s| == |t| == |u|
    && forall i :: 0 <= i < |s| ==> p(s[i], t[i], u[i])
  }

  lemma OneMoreEach<A, B, C>(p: (A, B, C) -> bool, s: seq<A>, t: seq<B>, u: seq<C>, a: A, b: B, c: C)
    requires Each(p, s, t, u) && p(a, b, c)
    ensures Each(p, s + [a], t + [b], u + [c])
  {
  }

  /**
   * `out` holds, in order, what became of the elements of `all` that are kept: `out[i]`
   * comes from `all[from[i]]`.
   */
  ghost predicate TakenFrom<A, B>(out: seq<B>, from: seq<nat>, all: seq<A>, keeps: A -> bool, becomes: (A, B) -> bool) {
    && |from| == |out|
    && (forall i, j :: 0 <= i < j < |from| ==> from[i] < from[j])
    && (forall i :: 0 <= i < |from| ==> from[i] < |all| && becomes(all[from[i]], out[i]))
    && (forall j :: 0 <= j < |all| ==> (j in from <==> keeps(all[j])))
  }

  lemma TakeNext<A, B>(
    out: seq<B>, from: seq<nat>, all: seq<A>, keeps: A -> bool, becomes: (A, B) -> bool, a: A, b: B)
    requires TakenFrom(out, from, all, keeps, becomes) && keeps(a) && becomes(a, b)
    ensures TakenFrom(out + [b], from + [|all|], all + [a], keeps, becomes)
  {
    assert forall j :: 0 <= j < |all| ==> (j in from + [|all|] <==> j in from);
  }

  lemma DropNext<A, B>(out: seq<B>, from: seq<nat>, all: seq<A>, keeps: A -> bool, becomes: (A, B) -> bool, a: A)
    requires TakenFrom(out, from, all, keeps, becomes) && !keeps(a)
    ensures TakenFrom(out, from, all + [a], keeps, becomes)
  {
  }

  lemma InitAndLast<T>(s: seq<T>)
    requires s != []
    ensures s[..|s| - 1] + [s[|s| - 1]] == s
  {
  }
}
