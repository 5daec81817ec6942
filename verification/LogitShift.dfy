/** What moving one logit does to the probability of an event, exactly.

    Adding log L to logit v of position i multiplies the weight of token v there by L and renormalises
    the row.  `ShiftedProbability` says how every event's probability changes, for any L > 0, so that the
    derivative by the logit can be read off without calculus: it is the coefficient of L - 1.
 */
module LogitShift {
  import opened JointMass

  /** Sum of the weights before k. */
  function Sum(w: seq<real>, k: nat): real
    requires k <= |w|
  {
    if k == 0 then 0.0 else Sum(w, k - 1) + w[k - 1]
  }

  /** A softmax row, given the exponentials of its logits. */
  function Softmax(w: seq<real>): (row: seq<real>)
    requires Sum(w, |w|) > 0.0
    ensures |row| == |w|
  {
    seq(|w|, u requires 0 <= u < |w| => w[u] / Sum(w, |w|))
  }

  function Scale(row: seq<real>, v: nat, l: real): real
    requires v < |row|
  {
    1.0 + Times(l - 1.0, row[v])
  }

  /** The row after the weight of token v was multiplied by l. */
  function Shifted(row: seq<real>, v: nat, l: real): (shifted: seq<real>)
    requires v < |row| && Scale(row, v, l) > 0.0
    ensures |shifted| == |row|
  {
    seq(|row|, u requires 0 <= u < |row| => (if u == v then Times(l, row[u]) else row[u]) / Scale(row, v, l))
  }

  lemma {:induction false} SumAfterUpdate(w: seq<real>, v: nat, x: real, k: nat)
    requires v < |w| && k <= |w|
    ensures Sum(w[v := x], k) == Sum(w, k) + (if v < k then x - w[v] else 0.0)
  {
    if k > 0 {
      SumAfterUpdate(w, v, x, k - 1);
    }
  }

  lemma DivideThrough(a: real, b: real, c: real)
    requires b != 0.0 && c != 0.0
    ensures (a / b) / (c / b) == a / c
  {
    var x, y := a / b, c / b;
    assert x * b == a && y * b == c;
    assert y != 0.0;
    var z := x / y;
    assert z * y == x;
    assert z * c == z * (y * b) == (z * y) * b == a;
  }

  lemma ScaleOfSoftmax(w: seq<real>, v: nat, l: real)
    requires v < |w| && Sum(w, |w|) > 0.0
    ensures Scale(Softmax(w), v, l) == Sum(w[v := Times(l, w[v])], |w|) / Sum(w, |w|)
  {
    SumAfterUpdate(w, v, Times(l, w[v]), |w|);
    ScaleQuotient(Sum(w, |w|), w[v], l);
  }

  lemma ScaleQuotient(all: real, x: real, l: real)
    requires all != 0.0
    ensures 1.0 + Times(l - 1.0, x / all) == (all + (Times(l, x) - x)) / all
  {
    var r := x / all;
    assert r * all == x;
    assert (1.0 + (l - 1.0) * r) * all == all + (l - 1.0) * (r * all);
    assert (l - 1.0) * x == l * x - x;
    IsQuotient(all + (Times(l, x) - x), all, 1.0 + Times(l - 1.0, r));
  }

  lemma IsQuotient(a: real, b: real, x: real)
    requires b != 0.0 && x * b == a
    ensures a / b == x
  {
  }

  /** Moving a logit by log l and taking the softmax again is `Shifted`. */
  lemma SoftmaxOfShiftedLogit(w: seq<real>, v: nat, l: real)
    requires v < |w| && Sum(w, |w|) > 0.0 && Sum(w[v := Times(l, w[v])], |w|) > 0.0
    ensures Scale(Softmax(w), v, l) > 0.0
    ensures Softmax(w[v := Times(l, w[v])]) == Shifted(Softmax(w), v, l)
  {
    var moved, all := w[v := Times(l, w[v])], Sum(w, |w|);
    var whole := Sum(moved, |w|);
    ScaleOfSoftmax(w, v, l);
    QuotientPositive(whole, all);
    forall u | 0 <= u < |w|
      ensures Softmax(moved)[u] == Shifted(Softmax(w), v, l)[u]
    {
      DivideThrough(moved[u], all, whole);
      if u == v {
        TimesQuotient(l, w[v], all);
      }
    }
  }

  lemma QuotientPositive(a: real, b: real)
    requires a > 0.0 && b > 0.0
    ensures a / b > 0.0
  {
  }

  lemma TimesQuotient(l: real, a: real, b: real)
    requires b != 0.0
    ensures Times(l, a) / b == Times(l, a / b)
  {
    var x := a / b;
    assert x * b == a;
    assert (l * x) * b == l * a;
  }

  // ---------------------------------------------------------------- the shifted row is a distribution

  lemma {:induction false} EntryBelowSum(row: seq<real>, v: nat, k: nat)
    requires k <= |row| && forall u :: 0 <= u < |row| ==> row[u] >= 0.0
    ensures RowMass(row, Always(|row|), k) >= if v < k then row[v] else 0.0
  {
    if k > 0 {
      EntryBelowSum(row, v, k - 1);
    }
  }

  lemma ScalePositive(row: seq<real>, v: nat, l: real)
    requires Distribution(row) && v < |row| && l > 0.0
    ensures Scale(row, v, l) > 0.0
  {
    EntryBelowSum(row, v, |row|);
    var p := row[v];
    assert 0.0 <= p <= 1.0;
    assert 1.0 + (l - 1.0) * p == (1.0 - p) + l * p;
    if p > 0.0 {
      assert l * p > 0.0;
    }
  }

  lemma EntryScaled(row: seq<real>, v: nat, l: real, u: nat)
    requires u < |row| && v < |row| && Scale(row, v, l) > 0.0
    ensures Times(Scale(row, v, l), Shifted(row, v, l)[u]) == row[u] + (if u == v then Times(l - 1.0, row[u]) else 0.0)
  {
  }

  lemma {:induction false} MassScaled(row: seq<real>, v: nat, l: real, k: nat)
    requires v < |row| && k <= |row| && Scale(row, v, l) > 0.0
    ensures Times(Scale(row, v, l), RowMass(Shifted(row, v, l), Always(|row|), k))
         == RowMass(row, Always(|row|), k) + (if v < k then Times(l - 1.0, row[v]) else 0.0)
  {
    if k > 0 {
      MassScaled(row, v, l, k - 1);
      EntryScaled(row, v, l, k - 1);
      Distribute(Scale(row, v, l), RowMass(Shifted(row, v, l), Always(|row|), k - 1), Shifted(row, v, l)[k - 1]);
    }
  }

  lemma Distribute(c: real, x: real, y: real)
    ensures Times(c, x + y) == Times(c, x) + Times(c, y)
  {
  }

  lemma Cancel(c: real, x: real)
    requires c > 0.0 && Times(c, x) == c
    ensures x == 1.0
  {
    assert c * (x - 1.0) == 0.0;
  }

  lemma ShiftedIsDistribution(row: seq<real>, v: nat, l: real)
    requires Distribution(row) && v < |row| && l > 0.0
    ensures Scale(row, v, l) > 0.0 && Distribution(Shifted(row, v, l))
  {
    ScalePositive(row, v, l);
    MassScaled(row, v, l, |row|);
    Cancel(Scale(row, v, l), RowMass(Shifted(row, v, l), Always(|row|), |row|));
    forall u | 0 <= u < |row|
      ensures Shifted(row, v, l)[u] >= 0.0
    {
      if u == v {
        assert Times(l, row[u]) >= 0.0;
      }
    }
  }

  // ---------------------------------------------------------------- probabilities

  /** The canvas with logit v of position i moved by log l. */
  ghost function ShiftedCanvas(p: Rows, vocab: nat, i: nat, v: nat, l: real): (shifted: Rows)
    requires Canvas(p, vocab) && i < |p| && v < vocab && l > 0.0
    ensures |shifted| == |p| && Canvas(shifted, vocab)
  {
    ShiftedIsDistribution(p[i], v, l);
    p[i := Shifted(p[i], v, l)]
  }

  ghost predicate SameBeyond(p: Rows, vocab: nat, pre: seq<nat>, e: Event, f: Event)
  {
    forall t :: Draw(vocab, |p|, t) && pre <= t ==> e(t) == f(t)
  }

  /** Once position i is drawn, its row no longer matters, and neither do draws that do not extend `pre`. */
  lemma {:induction false} SameMassBeyond(p: Rows, other: Rows, vocab: nat, pre: seq<nat>, e: Event, f: Event)
    requires Canvas(p, vocab) && Canvas(other, vocab) && |other| == |p|
    requires |pre| <= |p| && Draw(vocab, |pre|, pre) && SameBeyond(p, vocab, pre, e, f)
    requires forall j :: |pre| <= j < |p| ==> p[j] == other[j]
    ensures Mass(p, vocab, pre, e) == Mass(other, vocab, pre, f)
    decreases |p| - |pre|, vocab + 1
  {
    if |pre| < |p| {
      SameMassUpToBeyond(p, other, vocab, pre, vocab, e, f);
    }
  }

  lemma {:induction false} SameMassUpToBeyond(
      p: Rows, other: Rows, vocab: nat, pre: seq<nat>, k: nat, e: Event, f: Event)
    requires Canvas(p, vocab) && Canvas(other, vocab) && |other| == |p|
    requires |pre| < |p| && Draw(vocab, |pre|, pre) && k <= vocab && SameBeyond(p, vocab, pre, e, f)
    requires forall j :: |pre| <= j < |p| ==> p[j] == other[j]
    ensures MassUpTo(p, vocab, pre, k, e) == MassUpTo(other, vocab, pre, k, f)
    decreases |p| - |pre|, k
  {
    if k > 0 {
      SameMassUpToBeyond(p, other, vocab, pre, k - 1, e, f);
      var next: seq<nat> := pre + [k - 1];
      forall t | Draw(vocab, |p|, t) && next <= t
        ensures e(t) == f(t)
      {
        assert pre <= t;
      }
      SameMassBeyond(p, other, vocab, next, e, f);
    }
  }

  ghost predicate Never(p: Rows, vocab: nat, pre: seq<nat>, e: Event)
  {
    forall t :: Draw(vocab, |p|, t) && pre <= t ==> !e(t)
  }

  lemma {:induction false} NoMassBeyond(p: Rows, vocab: nat, pre: seq<nat>, e: Event)
    requires Canvas(p, vocab) && |pre| <= |p| && Draw(vocab, |pre|, pre) && Never(p, vocab, pre, e)
    ensures Mass(p, vocab, pre, e) == 0.0
  {
    var none: Event := t => false;
    SameMassBeyond(p, p, vocab, pre, e, none);
    MassSplits(p, vocab, pre, none, none, none);
  }

  /** `part` is the part of `e` with token v at position i. */
  ghost predicate PartWith(p: Rows, vocab: nat, e: Event, part: Event, i: nat, v: nat)
    requires i < |p|
  {
    forall t :: Draw(vocab, |p|, t) ==> (part(t) <==> e(t) && t[i] == v)
  }

  /** How a mass changes: `c` is the scale of the shifted row. */
  ghost predicate Moves(c: real, after: real, before: real, l: real, part: real)
  {
    Times(c, after) == before + Times(l - 1.0, part)
  }

  lemma TermAtPosition(c: real, shifted: real, r: real, l: real, hit: bool, mass: real, part: real)
    requires Times(c, shifted) == r + (if hit then Times(l - 1.0, r) else 0.0)
    requires part == if hit then mass else 0.0
    ensures Moves(c, Times(shifted, mass), Times(r, mass), l, Times(r, part))
  {
    assert c * (shifted * mass) == (c * shifted) * mass;
    if hit {
      assert (r + (l - 1.0) * r) * mass == r * mass + (l - 1.0) * (r * mass);
    }
  }

  lemma TermBefore(c: real, r: real, l: real, after: real, before: real, part: real)
    requires Moves(c, after, before, l, part)
    ensures Moves(c, Times(r, after), Times(r, before), l, Times(r, part))
  {
    assert c * (r * after) == r * (c * after);
    assert r * (before + (l - 1.0) * part) == r * before + (l - 1.0) * (r * part);
  }

  lemma MovesAdd(c: real, l: real, a0: real, b0: real, p0: real, a1: real, b1: real, p1: real)
    requires Moves(c, a0, b0, l, p0) && Moves(c, a1, b1, l, p1)
    ensures Moves(c, a0 + a1, b0 + b1, l, p0 + p1)
  {
  }

  lemma LastTerm(p: Rows, vocab: nat, pre: seq<nat>, k: nat, e: Event)
    requires Canvas(p, vocab) && |pre| < |p| && 0 < k <= vocab
    ensures MassUpTo(p, vocab, pre, k, e)
         == MassUpTo(p, vocab, pre, k - 1, e) + Times(p[|pre|][k - 1], Mass(p, vocab, pre + [k - 1], e))
  {
  }

  lemma {:induction false} MassMoves(
      p: Rows, vocab: nat, pre: seq<nat>, e: Event, part: Event, i: nat, v: nat, l: real)
    requires Canvas(p, vocab) && |pre| <= i < |p| && v < vocab && l > 0.0 && Draw(vocab, |pre|, pre)
    requires PartWith(p, vocab, e, part, i, v)
    ensures Moves(Scale(p[i], v, l), Mass(ShiftedCanvas(p, vocab, i, v, l), vocab, pre, e),
                  Mass(p, vocab, pre, e), l, Mass(p, vocab, pre, part))
    decreases i - |pre|, vocab + 1
  {
    MassUpToMoves(p, vocab, pre, vocab, e, part, i, v, l);
  }

  lemma {:induction false} MassUpToMoves(
      p: Rows, vocab: nat, pre: seq<nat>, k: nat, e: Event, part: Event, i: nat, v: nat, l: real)
    requires Canvas(p, vocab) && |pre| <= i < |p| && v < vocab && l > 0.0 && Draw(vocab, |pre|, pre) && k <= vocab
    requires PartWith(p, vocab, e, part, i, v)
    ensures Moves(Scale(p[i], v, l), MassUpTo(ShiftedCanvas(p, vocab, i, v, l), vocab, pre, k, e),
                  MassUpTo(p, vocab, pre, k, e), l, MassUpTo(p, vocab, pre, k, part))
    decreases i - |pre|, k
  {
    if k > 0 {
      MassUpToMoves(p, vocab, pre, k - 1, e, part, i, v, l);
      TermMoves(p, vocab, pre, k - 1, e, part, i, v, l);
      var q, c, next := ShiftedCanvas(p, vocab, i, v, l), Scale(p[i], v, l), pre + [k - 1];
      LastTerm(q, vocab, pre, k, e);
      LastTerm(p, vocab, pre, k, e);
      LastTerm(p, vocab, pre, k, part);
      MovesAdd(c, l, MassUpTo(q, vocab, pre, k - 1, e), MassUpTo(p, vocab, pre, k - 1, e),
               MassUpTo(p, vocab, pre, k - 1, part),
               Times(q[|pre|][k - 1], Mass(q, vocab, next, e)), Times(p[|pre|][k - 1], Mass(p, vocab, next, e)),
               Times(p[|pre|][k - 1], Mass(p, vocab, next, part)));
    }
  }

  /** One term of the sum: at position i the row itself has moved, before it the rest of the draw has. */
  lemma {:induction false} TermMoves(
      p: Rows, vocab: nat, pre: seq<nat>, u: nat, e: Event, part: Event, i: nat, v: nat, l: real)
    requires Canvas(p, vocab) && |pre| <= i < |p| && v < vocab && l > 0.0 && Draw(vocab, |pre|, pre) && u < vocab
    requires PartWith(p, vocab, e, part, i, v)
    ensures var q, next := ShiftedCanvas(p, vocab, i, v, l), pre + [u];
            Moves(Scale(p[i], v, l), Times(q[|pre|][u], Mass(q, vocab, next, e)),
                  Times(p[|pre|][u], Mass(p, vocab, next, e)), l, Times(p[|pre|][u], Mass(p, vocab, next, part)))
    decreases i - |pre|, u
  {
    var q, next := ShiftedCanvas(p, vocab, i, v, l), pre + [u];
    if |pre| < i {
      MassMoves(p, vocab, next, e, part, i, v, l);
      TermBefore(Scale(p[i], v, l), p[|pre|][u], l,
                 Mass(q, vocab, next, e), Mass(p, vocab, next, e), Mass(p, vocab, next, part));
    } else {
      AtPosition(p, vocab, next, e, part, i, v);
      SameMassBeyond(p, q, vocab, next, e, e);
      ShiftedIsDistribution(p[i], v, l);
      EntryScaled(p[i], v, l, u);
      TermAtPosition(Scale(p[i], v, l), q[i][u], p[i][u], l, u == v,
                     Mass(p, vocab, next, e), Mass(p, vocab, next, part));
    }
  }

  lemma AtPosition(p: Rows, vocab: nat, next: seq<nat>, e: Event, part: Event, i: nat, v: nat)
    requires Canvas(p, vocab) && |next| == i + 1 <= |p| && Draw(vocab, |next|, next)
    requires PartWith(p, vocab, e, part, i, v)
    ensures Mass(p, vocab, next, part) == if next[i] == v then Mass(p, vocab, next, e) else 0.0
  {
    if next[i] == v {
      SameMassBeyond(p, p, vocab, next, part, e);
    } else {
      NoMassBeyond(p, vocab, next, part);
    }
  }

  /** With the weight of token v at position i multiplied by l, the probability of any event e changes to
      (P(e) + (l - 1) P(e, token v at i)) / (1 + (l - 1) p). */
  lemma ShiftedProbability(p: Rows, vocab: nat, e: Event, part: Event, i: nat, v: nat, l: real)
    requires Canvas(p, vocab) && i < |p| && v < vocab && l > 0.0 && PartWith(p, vocab, e, part, i, v)
    ensures Scale(p[i], v, l) > 0.0
    ensures Times(Scale(p[i], v, l), Probability(ShiftedCanvas(p, vocab, i, v, l), vocab, e))
         == Probability(p, vocab, e) + Times(l - 1.0, Probability(p, vocab, part))
  {
    ShiftedIsDistribution(p[i], v, l);
    MassMoves(p, vocab, [], e, part, i, v, l);
  }
}
