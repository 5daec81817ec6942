/** Probability of an event under independent draws, one per canvas position.

    A `draw` picks one token per position; position i draws token v with probability p[i][v].
    `Mass` sums the product probability over every draw satisfying an event, one position at a
    time.  The facts here are the ones the confidence-transition law rests on: additivity over
    disjoint events, and "a sum over a product set is a product of sums".
 */
module JointMass {

  type Rows = seq<seq<real>>

  /** Multiplication under a name of its own: proofs about long products rewrite `Times` terms. */
  function Times(a: real, b: real): real
  {
    a * b
  }

  /** Sum of the entries of `row` before `k` that `keep` admits. */
  function RowMass(row: seq<real>, keep: seq<bool>, k: nat): real
    requires k <= |row| == |keep|
  {
    if k == 0 then 0.0
    else RowMass(row, keep, k - 1) + (if keep[k - 1] then row[k - 1] else 0.0)
  }

  function Always(n: nat): (keep: seq<bool>)
  {
    seq(n, _ => true)
  }

  function Only(n: nat, v: nat): (keep: seq<bool>)
  {
    seq(n, u => u == v)
  }

  /** A probability vector over a non-empty vocabulary. */
  ghost predicate Distribution(row: seq<real>)
  {
    && (forall v :: 0 <= v < |row| ==> row[v] >= 0.0)
    && RowMass(row, Always(|row|), |row|) == 1.0
  }

  /** Every position draws from its own distribution over the same vocabulary. */
  ghost predicate Canvas(p: Rows, vocab: nat)
  {
    forall i :: 0 <= i < |p| ==> |p[i]| == vocab && Distribution(p[i])
  }

  ghost predicate Draw(vocab: nat, n: nat, t: seq<nat>)
  {
    |t| == n && forall i :: 0 <= i < n ==> t[i] < vocab
  }

  type Event = seq<nat> -> bool

  /** Probability that completing `pre` by independent draws gives a draw in `e`. */
  ghost function Mass(p: Rows, vocab: nat, pre: seq<nat>, e: Event): real
    requires Canvas(p, vocab) && |pre| <= |p|
    decreases |p| - |pre|, vocab + 1
  {
    if |pre| == |p| then (if e(pre) then 1.0 else 0.0)
    else MassUpTo(p, vocab, pre, vocab, e)
  }

  /** The part of `Mass` in which the next position draws one of the tokens before `k`. */
  ghost function MassUpTo(p: Rows, vocab: nat, pre: seq<nat>, k: nat, e: Event): real
    requires Canvas(p, vocab) && |pre| < |p| && k <= vocab
    decreases |p| - |pre|, k
  {
    if k == 0 then 0.0
    else MassUpTo(p, vocab, pre, k - 1, e) + p[|pre|][k - 1] * Mass(p, vocab, pre + [k - 1], e)
  }

  ghost function Probability(p: Rows, vocab: nat, e: Event): real
    requires Canvas(p, vocab)
  {
    Mass(p, vocab, [], e)
  }

  ghost predicate SameOnDraws(p: Rows, vocab: nat, e: Event, f: Event)
  {
    forall t :: Draw(vocab, |p|, t) ==> e(t) == f(t)
  }

  ghost predicate SplitsOnDraws(p: Rows, vocab: nat, whole: Event, e: Event, f: Event)
  {
    forall t :: Draw(vocab, |p|, t) ==> (whole(t) <==> e(t) || f(t)) && !(e(t) && f(t))
  }

  /** The probability of an event is determined by which full draws it contains. */
  lemma {:induction false} SameMass(p: Rows, vocab: nat, pre: seq<nat>, e: Event, f: Event)
    requires Canvas(p, vocab) && |pre| <= |p| && Draw(vocab, |pre|, pre)
    requires SameOnDraws(p, vocab, e, f)
    ensures Mass(p, vocab, pre, e) == Mass(p, vocab, pre, f)
    decreases |p| - |pre|, vocab + 1
  {
    if |pre| < |p| {
      SameMassUpTo(p, vocab, pre, vocab, e, f);
    }
  }

  lemma {:induction false} SameMassUpTo(p: Rows, vocab: nat, pre: seq<nat>, k: nat, e: Event, f: Event)
    requires Canvas(p, vocab) && |pre| < |p| && Draw(vocab, |pre|, pre) && k <= vocab
    requires SameOnDraws(p, vocab, e, f)
    ensures MassUpTo(p, vocab, pre, k, e) == MassUpTo(p, vocab, pre, k, f)
    decreases |p| - |pre|, k
  {
    if k > 0 {
      SameMassUpTo(p, vocab, pre, k - 1, e, f);
      SameMass(p, vocab, pre + [k - 1], e, f);
    }
  }

  /** Probability is additive over two disjoint events. */
  lemma {:induction false} MassSplits(p: Rows, vocab: nat, pre: seq<nat>, whole: Event, e: Event, f: Event)
    requires Canvas(p, vocab) && |pre| <= |p| && Draw(vocab, |pre|, pre)
    requires SplitsOnDraws(p, vocab, whole, e, f)
    ensures Mass(p, vocab, pre, whole) == Mass(p, vocab, pre, e) + Mass(p, vocab, pre, f)
    decreases |p| - |pre|, vocab + 1
  {
    if |pre| < |p| {
      MassUpToSplits(p, vocab, pre, vocab, whole, e, f);
    }
  }

  lemma {:induction false} MassUpToSplits(p: Rows, vocab: nat, pre: seq<nat>, k: nat, whole: Event, e: Event, f: Event)
    requires Canvas(p, vocab) && |pre| < |p| && Draw(vocab, |pre|, pre) && k <= vocab
    requires SplitsOnDraws(p, vocab, whole, e, f)
    ensures MassUpTo(p, vocab, pre, k, whole) == MassUpTo(p, vocab, pre, k, e) + MassUpTo(p, vocab, pre, k, f)
    decreases |p| - |pre|, k
  {
    if k > 0 {
      MassUpToSplits(p, vocab, pre, k - 1, whole, e, f);
      MassSplits(p, vocab, pre + [k - 1], whole, e, f);
      var r, a, b := p[|pre|][k - 1], Mass(p, vocab, pre + [k - 1], e), Mass(p, vocab, pre + [k - 1], f);
      assert r * (a + b) == r * a + r * b;
    }
  }

  /** A product set of draws: `box[i]` says which tokens position i may draw. */
  ghost predicate Boxed(p: Rows, vocab: nat, box: seq<seq<bool>>)
  {
    |box| == |p| && forall i :: 0 <= i < |box| ==> |box[i]| == vocab
  }

  ghost predicate InBox(box: seq<seq<bool>>, t: seq<nat>)
  {
    |t| <= |box| && forall i :: 0 <= i < |t| ==> t[i] < |box[i]| && box[i][t[i]]
  }

  /** Product, from position i on, of the probability each position draws inside the box. */
  ghost function BoxProduct(p: Rows, vocab: nat, box: seq<seq<bool>>, i: nat): real
    requires Canvas(p, vocab) && Boxed(p, vocab, box) && i <= |p|
    decreases |p| - i
  {
    if i == |p| then 1.0 else Times(RowMass(p[i], box[i], vocab), BoxProduct(p, vocab, box, i + 1))
  }

  ghost predicate IsBox(p: Rows, vocab: nat, e: Event, box: seq<seq<bool>>)
  {
    forall t :: Draw(vocab, |p|, t) ==> (e(t) <==> InBox(box, t))
  }

  /** A sum over a product set is a product of sums. */
  lemma {:induction false} MassOfBox(p: Rows, vocab: nat, pre: seq<nat>, e: Event, box: seq<seq<bool>>)
    requires Canvas(p, vocab) && |pre| <= |p| && Draw(vocab, |pre|, pre)
    requires Boxed(p, vocab, box) && IsBox(p, vocab, e, box)
    ensures Mass(p, vocab, pre, e) == if InBox(box, pre) then BoxProduct(p, vocab, box, |pre|) else 0.0
    decreases |p| - |pre|, vocab + 1
  {
    if |pre| < |p| {
      MassUpToOfBox(p, vocab, pre, vocab, e, box);
    }
  }

  lemma {:induction false} MassUpToOfBox(p: Rows, vocab: nat, pre: seq<nat>, k: nat, e: Event, box: seq<seq<bool>>)
    requires Canvas(p, vocab) && |pre| < |p| && Draw(vocab, |pre|, pre) && k <= vocab
    requires Boxed(p, vocab, box) && IsBox(p, vocab, e, box)
    ensures MassUpTo(p, vocab, pre, k, e)
         == if InBox(box, pre) then Times(RowMass(p[|pre|], box[|pre|], k), BoxProduct(p, vocab, box, |pre| + 1))
            else 0.0
    decreases |p| - |pre|, k
  {
    if k > 0 {
      MassUpToOfBox(p, vocab, pre, k - 1, e, box);
      MassOfBox(p, vocab, pre + [k - 1], e, box);
      var i := |pre|;
      var next := pre + [k - 1];
      assert next[i] == k - 1 && forall j :: 0 <= j < i ==> next[j] == pre[j];
      var rest := BoxProduct(p, vocab, box, i + 1);
      var before, r := RowMass(p[i], box[i], k - 1), p[i][k - 1];
      assert InBox(box, next) <==> InBox(box, pre) && box[i][k - 1];
      assert Times(before + r, rest) == Times(before, rest) + r * rest;
    }
  }

  ghost function WholeBox(n: nat, vocab: nat): seq<seq<bool>>
  {
    seq(n, _ => Always(vocab))
  }

  lemma {:induction false} WholeBoxProduct(p: Rows, vocab: nat, i: nat)
    requires Canvas(p, vocab) && i <= |p|
    ensures BoxProduct(p, vocab, WholeBox(|p|, vocab), i) == 1.0
    decreases |p| - i
  {
    if i < |p| {
      WholeBoxProduct(p, vocab, i + 1);
      assert WholeBox(|p|, vocab)[i] == Always(|p[i]|);
    }
  }

  /** All draws together have probability one. */
  lemma CertainEvent(p: Rows, vocab: nat, e: Event)
    requires Canvas(p, vocab)
    requires forall t :: Draw(vocab, |p|, t) ==> e(t)
    ensures Probability(p, vocab, e) == 1.0
  {
    MassOfBox(p, vocab, [], e, WholeBox(|p|, vocab));
    WholeBoxProduct(p, vocab, 0);
  }

  lemma {:induction false} MassNonNegative(p: Rows, vocab: nat, pre: seq<nat>, e: Event)
    requires Canvas(p, vocab) && |pre| <= |p|
    ensures Mass(p, vocab, pre, e) >= 0.0
    decreases |p| - |pre|, vocab + 1
  {
    if |pre| < |p| {
      MassUpToNonNegative(p, vocab, pre, vocab, e);
    }
  }

  lemma {:induction false} MassUpToNonNegative(p: Rows, vocab: nat, pre: seq<nat>, k: nat, e: Event)
    requires Canvas(p, vocab) && |pre| < |p| && k <= vocab
    ensures MassUpTo(p, vocab, pre, k, e) >= 0.0
    decreases |p| - |pre|, k
  {
    if k > 0 {
      MassUpToNonNegative(p, vocab, pre, k - 1, e);
      MassNonNegative(p, vocab, pre + [k - 1], e);
    }
  }

  /** No draw satisfies the event: it has probability zero. */
  lemma ImpossibleEvent(p: Rows, vocab: nat, e: Event)
    requires Canvas(p, vocab)
    requires forall t :: Draw(vocab, |p|, t) ==> !e(t)
    ensures Probability(p, vocab, e) == 0.0
  {
    MassSplits(p, vocab, [], e, e, e);
  }

  /** An event inside an event of probability zero has probability zero. */
  lemma InsideNullEvent(p: Rows, vocab: nat, e: Event, outer: Event)
    requires Canvas(p, vocab) && Probability(p, vocab, outer) == 0.0
    requires forall t :: Draw(vocab, |p|, t) && e(t) ==> outer(t)
    ensures Probability(p, vocab, e) == 0.0
  {
    var rest: Event := t => outer(t) && !e(t);
    MassSplits(p, vocab, [], outer, e, rest);
    MassNonNegative(p, vocab, [], e);
    MassNonNegative(p, vocab, [], rest);
  }

  /** The box product from j on, leaving out the factor at i. */
  ghost function ProductWithout(p: Rows, vocab: nat, box: seq<seq<bool>>, i: nat, j: nat): real
    requires Canvas(p, vocab) && Boxed(p, vocab, box) && j <= i < |p|
    decreases i - j
  {
    if j == i then BoxProduct(p, vocab, box, i + 1)
    else Times(RowMass(p[j], box[j], vocab), ProductWithout(p, vocab, box, i, j + 1))
  }

  lemma {:induction false} TakeOutFactor(p: Rows, vocab: nat, box: seq<seq<bool>>, i: nat, j: nat)
    requires Canvas(p, vocab) && Boxed(p, vocab, box) && j <= i < |p|
    ensures BoxProduct(p, vocab, box, j) == Times(ProductWithout(p, vocab, box, i, j), RowMass(p[i], box[i], vocab))
    decreases i - j
  {
    if j < i {
      TakeOutFactor(p, vocab, box, i, j + 1);
      Associate(RowMass(p[j], box[j], vocab), ProductWithout(p, vocab, box, i, j + 1), RowMass(p[i], box[i], vocab));
    }
  }

  lemma Associate(a: real, b: real, c: real)
    ensures Times(a, Times(b, c)) == Times(Times(a, b), c)
  {
  }

  /** Boxes that agree away from position i have products that differ only in the factor at i. */
  lemma {:induction false} SameWithout(
      p: Rows, vocab: nat, box: seq<seq<bool>>, other: seq<seq<bool>>, i: nat, j: nat)
    requires Canvas(p, vocab) && Boxed(p, vocab, box) && Boxed(p, vocab, other) && j <= i < |p|
    requires forall m :: 0 <= m < |p| && m != i ==> box[m] == other[m]
    ensures ProductWithout(p, vocab, box, i, j) == ProductWithout(p, vocab, other, i, j)
    decreases i - j
  {
    if j == i {
      SameTail(p, vocab, box, other, i + 1);
    } else {
      SameWithout(p, vocab, box, other, i, j + 1);
    }
  }

  lemma {:induction false} SameTail(p: Rows, vocab: nat, box: seq<seq<bool>>, other: seq<seq<bool>>, j: nat)
    requires Canvas(p, vocab) && Boxed(p, vocab, box) && Boxed(p, vocab, other)
    requires j <= |p| && forall m :: j <= m < |p| ==> box[m] == other[m]
    ensures BoxProduct(p, vocab, box, j) == BoxProduct(p, vocab, other, j)
    decreases |p| - j
  {
    if j < |p| {
      SameTail(p, vocab, box, other, j + 1);
    }
  }

  lemma {:induction false} RowMassOnly(row: seq<real>, v: nat, k: nat)
    requires k <= |row|
    ensures RowMass(row, Only(|row|, v), k) == if v < k then row[v] else 0.0
  {
    if k > 0 {
      RowMassOnly(row, v, k - 1);
    }
  }

  lemma {:induction false} RowMassNonNegative(row: seq<real>, keep: seq<bool>, k: nat)
    requires k <= |row| == |keep| && forall v :: 0 <= v < |row| ==> row[v] >= 0.0
    ensures RowMass(row, keep, k) >= 0.0
  {
    if k > 0 {
      RowMassNonNegative(row, keep, k - 1);
    }
  }

  /** One position's draw has its own row as its law. */
  lemma DrawAt(p: Rows, vocab: nat, i: nat, v: nat, e: Event)
    requires Canvas(p, vocab) && i < |p| && v < vocab
    requires forall t :: Draw(vocab, |p|, t) ==> (e(t) <==> t[i] == v)
    ensures Probability(p, vocab, e) == p[i][v]
  {
    var whole := WholeBox(|p|, vocab);
    var box := whole[i := Only(vocab, v)];
    forall t | Draw(vocab, |p|, t)
      ensures e(t) <==> InBox(box, t)
    {
      if InBox(box, t) {
        assert box[i][t[i]];
      }
    }
    MassOfBox(p, vocab, [], e, box);
    TakeOutFactor(p, vocab, whole, i, 0);
    TakeOutFactor(p, vocab, box, i, 0);
    SameWithout(p, vocab, whole, box, i, 0);
    WholeBoxProduct(p, vocab, 0);
    RowMassOnly(p[i], v, vocab);
    assert whole[i] == Always(|p[i]|);
  }
}
