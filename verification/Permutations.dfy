/** Sorted orders of a row as index permutations, and sums that do not depend on the order. */
module Permutations {

  ghost predicate IsPermutation(idx: seq<nat>)
  {
    && (forall j :: 0 <= j < |idx| ==> idx[j] < |idx|)
    && (forall i, j :: 0 <= i < j < |idx| ==> idx[i] != idx[j])
  }

  function SumTo(xs: seq<real>, n: nat): real
    requires n <= |xs|
  {
    if n == 0 then 0.0 else SumTo(xs, n - 1) + xs[n - 1]
  }

  function Sum(xs: seq<real>): real
  {
    SumTo(xs, |xs|)
  }

  /** `xs` in the order of `idx`. */
  function Gather<T>(xs: seq<T>, idx: seq<nat>): (r: seq<T>)
    requires forall j :: 0 <= j < |idx| ==> idx[j] < |xs|
    ensures |r| == |idx| && forall j :: 0 <= j < |idx| ==> r[j] == xs[idx[j]]
  {
    seq(|idx|, j requires 0 <= j < |idx| => xs[idx[j]])
  }

  lemma {:induction false} SumAgrees(xs: seq<real>, ys: seq<real>, n: nat)
    requires n <= |xs| && n <= |ys| && forall j :: 0 <= j < n ==> xs[j] == ys[j]
    ensures SumTo(xs, n) == SumTo(ys, n)
  {
    if n > 0 {
      SumAgrees(xs, ys, n - 1);
    }
  }

  lemma Zeroes(xs: seq<real>, n: nat)
    requires n <= |xs| && forall j :: 0 <= j < n ==> xs[j] == 0.0
    ensures SumTo(xs, n) == 0.0
  {
  }

  lemma {:induction false} SumSingle(xs: seq<real>, i: nat, n: nat)
    requires i < n <= |xs| && forall j :: 0 <= j < n && j != i ==> xs[j] == 0.0
    ensures SumTo(xs, n) == xs[i]
  {
    if i == n - 1 {
      Zeroes(xs, n - 1);
    } else {
      SumSingle(xs, i, n - 1);
    }
  }

  /** Every value below |idx| occurs. */
  lemma Occurs(idx: seq<nat>, v: nat)
    requires IsPermutation(idx) && v < |idx|
    ensures v in idx
  {
    if v !in idx {
      DistinctCount(idx, |idx|, Naturals(|idx|) - {v as int});
    }
  }

  function Naturals(n: nat): (s: set<int>)
    ensures |s| == n && forall x :: x in s <==> 0 <= x < n
  {
    if n == 0 then {} else Naturals(n - 1) + {n - 1}
  }

  /** Distinct entries inside a set: no more of them than the set has members. */
  lemma {:induction false} DistinctCount(idx: seq<nat>, n: nat, s: set<int>)
    requires n <= |idx| && (forall i, j :: 0 <= i < j < n ==> idx[i] != idx[j])
    requires forall j :: 0 <= j < n ==> idx[j] in s
    ensures n <= |s|
  {
    if n > 0 {
      DistinctCount(idx, n - 1, s - {idx[n - 1] as int});
    }
  }

  function Entries(top: seq<int>): (s: set<int>)
    ensures |s| <= |top| && forall x :: x in s <==> x in top
  {
    if top == [] then {} else Entries(top[1..]) + {top[0]}
  }

  lemma {:induction false} DistinctEntries(idx: seq<int>)
    requires forall a, b :: 0 <= a < b < |idx| ==> idx[a] != idx[b]
    ensures |Entries(idx)| == |idx|
  {
    if idx != [] {
      DistinctEntries(idx[1..]);
      assert idx[0] !in idx[1..];
    }
  }

  lemma Subset(a: set<int>, b: set<int>)
    requires a <= b
    ensures |a| <= |b|
  {
    assert a + (b - a) == b;
  }

  // ---------------------------------------------------------------- sums in any order

  /** Part of `xs` whose indices the first n entries of `idx` list. */
  function Listed(xs: seq<real>, idx: seq<nat>, n: nat): seq<real>
    requires n <= |idx|
  {
    seq(|xs|, v requires 0 <= v < |xs| => if exists j :: 0 <= j < n && idx[j] == v then xs[v] else 0.0)
  }

  lemma {:induction false} SumPlus(xs: seq<real>, ys: seq<real>, zs: seq<real>, n: nat)
    requires n <= |xs| && n <= |ys| && n <= |zs| && forall j :: 0 <= j < n ==> xs[j] == ys[j] + zs[j]
    ensures SumTo(xs, n) == SumTo(ys, n) + SumTo(zs, n)
  {
    if n > 0 {
      SumPlus(xs, ys, zs, n - 1);
    }
  }

  lemma {:induction false} SumOfListed(xs: seq<real>, idx: seq<nat>, n: nat)
    requires IsPermutation(idx) && |idx| == |xs| && n <= |idx|
    ensures SumTo(Gather(xs, idx), n) == Sum(Listed(xs, idx, n))
  {
    if n == 0 {
      Zeroes(Listed(xs, idx, 0), |xs|);
    } else {
      SumOfListed(xs, idx, n - 1);
      var one := seq(|xs|, v requires 0 <= v < |xs| => if v == idx[n - 1] then xs[v] else 0.0);
      SumSingle(one, idx[n - 1], |xs|);
      SumPlus(Listed(xs, idx, n), Listed(xs, idx, n - 1), one, |xs|);
    }
  }

  /** A permuted row has the same sum. */
  lemma SumInAnyOrder(xs: seq<real>, idx: seq<nat>)
    requires IsPermutation(idx) && |idx| == |xs|
    ensures Sum(Gather(xs, idx)) == Sum(xs)
  {
    SumOfListed(xs, idx, |idx|);
    forall v | 0 <= v < |xs|
      ensures Listed(xs, idx, |idx|)[v] == xs[v]
    {
      Occurs(idx, v);
    }
    SumAgrees(Listed(xs, idx, |idx|), xs, |xs|);
  }

  // ---------------------------------------------------------------- the inverse

  /** Place of value v in `idx`. */
  function Place(idx: seq<nat>, v: nat): (j: nat)
    requires v in idx
    ensures j < |idx| && idx[j] == v
  {
    if idx[0] == v then 0 else 1 + Place(idx[1..], v)
  }

  /** `scatter(index=idx, src=xs)` for a permutation. */
  function Scatter<T>(xs: seq<T>, idx: seq<nat>): (r: seq<T>)
    requires IsPermutation(idx) && |xs| == |idx|
    ensures |r| == |xs|
  {
    seq(|xs|, v requires 0 <= v < |xs| => (Occurs(idx, v); xs[Place(idx, v)]))
  }
}
