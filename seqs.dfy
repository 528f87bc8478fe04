/** Sequence helpers: duplicate-freedom, first index of an element, and
    reordering a sequence by a permutation of its indices. */
module Seqs {

  /** No element occurs twice. */
  ghost predicate NoDup<T>(xs: seq<T>) {
    forall i, j :: 0 <= i < j < |xs| ==> xs[i] != xs[j]
  }

  /** The position of the first occurrence of `x` in `xs`. */
  function IndexOf<T(==)>(xs: seq<T>, x: T): (i: nat)
    requires x in xs
    ensures i < |xs| && xs[i] == x
    ensures forall j :: 0 <= j < i ==> xs[j] != x
  {
    if xs[0] == x then 0 else 1 + IndexOf(xs[1..], x)
  }

  /** The first occurrence of an element in a prefix is its first occurrence in the whole. */
  lemma IndexOfPrefix<T>(xs: seq<T>, k: nat, x: T)
    requires k <= |xs| && x in xs[..k]
    ensures x in xs && IndexOf(xs, x) == IndexOf(xs[..k], x)
  {
    var i := IndexOf(xs[..k], x);
    assert xs[i] == x;
    var j := IndexOf(xs, x);
    assert j <= i;
    assert xs[..k][j] == x;
  }

  /** The indices 0, 1, ..., n - 1 in increasing order. */
  function Indices(n: nat): seq<nat> {
    seq(n, i => i)
  }

  /** `p` lists every index below `n` exactly once. */
  ghost predicate IsPermutationOf(p: seq<nat>, n: nat) {
    && (forall k :: 0 <= k < |p| ==> p[k] < n)
    && multiset(p) == multiset(Indices(n))
  }

  /** The elements of `xs` taken in the order the indices `p` name them
      (an index past the end of `xs` names nothing). */
  function Select<T>(xs: seq<T>, p: seq<nat>): seq<T> {
    if p == [] then [] else Named(xs, p[0]) + Select(xs, p[1..])
  }

  /** The element index `j` names: none when `j` is past the end. */
  function Named<T>(xs: seq<T>, j: nat): seq<T> {
    if j < |xs| then [xs[j]] else []
  }

  lemma {:induction false} SelectAt<T>(xs: seq<T>, p: seq<nat>)
    requires forall k :: 0 <= k < |p| ==> p[k] < |xs|
    ensures |Select(xs, p)| == |p|
    ensures forall k :: 0 <= k < |p| ==> Select(xs, p)[k] == xs[p[k]]
    decreases |p|
  {
    if p != [] {
      SelectAt(xs, p[1..]);
    }
  }

  lemma {:induction false} SelectAppend<T>(xs: seq<T>, p: seq<nat>, q: seq<nat>)
    ensures Select(xs, p + q) == Select(xs, p) + Select(xs, q)
    decreases |p|
  {
    if p != [] {
      assert (p + q)[0] == p[0] && (p + q)[1..] == p[1..] + q;
      SelectAppend(xs, p[1..], q);
    } else {
      assert p + q == q;
    }
  }

  /** One more index selects one more element, at the end. */
  lemma SelectSnoc<T>(xs: seq<T>, p: seq<nat>, j: nat)
    requires j < |xs|
    ensures Select(xs, p + [j]) == Select(xs, p) + [xs[j]]
  {
    SelectAppend(xs, p, [j]);
    assert Select(xs, [j]) == Named(xs, j) + Select(xs, []);
  }

  /** Taking out the element at position `i` takes one copy of it out of the multiset. */
  lemma RemoveAt<T>(q: seq<T>, i: nat)
    requires i < |q|
    ensures q == q[..i] + [q[i]] + q[i + 1..]
    ensures multiset(q[..i] + q[i + 1..]) == multiset(q) - multiset{q[i]}
  {
  }

  /** Selecting without the index at position `i` loses exactly what that index names. */
  lemma SelectRemoveAt<T>(xs: seq<T>, q: seq<nat>, i: nat)
    requires i < |q|
    ensures multiset(Select(xs, q)) == multiset(Select(xs, q[..i] + q[i + 1..])) + multiset(Named(xs, q[i]))
  {
    var q1, q2 := q[..i], q[i + 1..];
    assert q == (q1 + [q[i]]) + q2;
    SelectAppend(xs, q1 + [q[i]], q2);
    SelectAppend(xs, q1, [q[i]]);
    SelectAppend(xs, q1, q2);
    assert Select(xs, [q[i]]) == Named(xs, q[i]) + Select(xs, []);
  }

  /** Two sequences with the same elements still have the same elements
      once the first of one and a matching copy in the other are taken out. */
  lemma RemoveMatching<T>(p: seq<T>, q: seq<T>, i: nat)
    requires multiset(p) == multiset(q)
    requires |p| > 0 && i < |q| && q[i] == p[0]
    ensures multiset(p[1..]) == multiset(q[..i] + q[i + 1..])
  {
    RemoveAt(q, i);
    RemoveAt(p, 0);
    assert p[..0] + p[1..] == p[1..];
  }

  /** Selecting by two index lists that hold the same indices yields the same elements. */
  lemma {:induction false} SelectMultiset<T>(xs: seq<T>, p: seq<nat>, q: seq<nat>)
    requires multiset(p) == multiset(q)
    ensures multiset(Select(xs, p)) == multiset(Select(xs, q))
    decreases |p|
  {
    if p == [] {
      assert |q| == |multiset(q)| == 0;
    } else {
      var a := p[0];
      assert a in multiset(q);
      var i := IndexOf(q, a);
      var rest := q[..i] + q[i + 1..];
      RemoveMatching(p, q, i);
      SelectMultiset(xs, p[1..], rest);
      SelectRemoveAt(xs, q, i);
    }
  }

  /** A permutation of the indices of `xs` reorders `xs` without adding or losing elements. */
  lemma SelectPermutation<T>(xs: seq<T>, p: seq<nat>)
    requires IsPermutationOf(p, |xs|)
    ensures |Select(xs, p)| == |xs|
    ensures multiset(Select(xs, p)) == multiset(xs)
  {
    assert |p| == |multiset(p)| == |multiset(Indices(|xs|))| == |xs|;
    SelectAt(xs, p);
    SelectMultiset(xs, p, Indices(|xs|));
    SelectIndices(xs);
  }

  /** Selecting every index in increasing order gives the sequence back. */
  lemma SelectIndices<T>(xs: seq<T>)
    ensures Select(xs, Indices(|xs|)) == xs
  {
    SelectAt(xs, Indices(|xs|));
  }
}
