/** The closed forms of all visible outcomes form one probability law, and the score the backward
    pass emits is the derivative of that law.

    An outcome lists, per position, the revealed token or `HIDDEN`.  `Total` sums a weight over
    every conceivable outcome, reachable or not.
 */
module TransitionLaw {
  import opened Wrappers

  import opened JointMass
  import opened ConfidenceTransition
  import LogitShift

  const HIDDEN: int := -1

  ghost predicate IsOutcome(d: Decoder, o: seq<int>)
  {
    |o| == |d.p| && forall i :: 0 <= i < |o| ==> HIDDEN <= o[i] < d.vocab
  }

  /** What the decoder shows when the proposals are `t`. */
  ghost function Shown(d: Decoder, t: seq<nat>): (o: seq<int>)
    requires WellFormed(d) && Draw(d.vocab, |d.p|, t)
    ensures IsOutcome(d, o)
  {
    seq(|d.p|, i requires 0 <= i < |d.p| => if Visible(d, t, i) then t[i] else HIDDEN)
  }

  ghost function Total(d: Decoder, pre: seq<int>, weight: seq<int> -> real): real
    requires |pre| <= |d.p|
    decreases |d.p| - |pre|, d.vocab + 2
  {
    if |pre| == |d.p| then weight(pre) else TotalUpTo(d, pre, d.vocab + 1, weight)
  }

  /** The part of `Total` whose next entry is HIDDEN or a token, the first k of that list. */
  ghost function TotalUpTo(d: Decoder, pre: seq<int>, k: nat, weight: seq<int> -> real): real
    requires |pre| < |d.p| && k <= d.vocab + 1
    decreases |d.p| - |pre|, k
  {
    if k == 0 then 0.0
    else TotalUpTo(d, pre, k - 1, weight) + Total(d, pre + [k - 2], weight)
  }

  /** Draws in `e` whose outcome continues `pre`. */
  ghost function Continuing(d: Decoder, e: Event, pre: seq<int>): Event
    requires WellFormed(d)
  {
    t => Draw(d.vocab, |d.p|, t) && e(t) && pre <= Shown(d, t)
  }

  /** As `Continuing`, and the next entry is among the first k. */
  ghost function ContinuingBelow(d: Decoder, e: Event, pre: seq<int>, k: nat): Event
    requires WellFormed(d) && |pre| < |d.p|
  {
    t => Draw(d.vocab, |d.p|, t) && e(t) && pre <= Shown(d, t) && Shown(d, t)[|pre|] < k - 1
  }

  ghost predicate WeighsOutcomes(d: Decoder, e: Event, weight: seq<int> -> real)
    requires WellFormed(d)
  {
    forall o :: IsOutcome(d, o) ==> weight(o) == Probability(d.p, d.vocab, Continuing(d, e, o))
  }

  /** Summing P(e and the outcome is o) over all outcomes o gives P(e): distinct outcomes have
      disjoint preimages and every proposal has an outcome. */
  lemma {:induction false} OutcomesPartition(d: Decoder, e: Event, pre: seq<int>, weight: seq<int> -> real)
    requires WellFormed(d) && |pre| <= |d.p|
    requires forall i :: 0 <= i < |pre| ==> HIDDEN <= pre[i] < d.vocab
    requires WeighsOutcomes(d, e, weight)
    ensures Total(d, pre, weight) == Probability(d.p, d.vocab, Continuing(d, e, pre))
    decreases |d.p| - |pre|, d.vocab + 2
  {
    if |pre| < |d.p| {
      OutcomesBelowPartition(d, e, pre, d.vocab + 1, weight);
      forall t | Draw(d.vocab, |d.p|, t)
        ensures ContinuingBelow(d, e, pre, d.vocab + 1)(t) == Continuing(d, e, pre)(t)
      {
        assert HIDDEN <= Shown(d, t)[|pre|] < d.vocab;
      }
      SameMass(d.p, d.vocab, [], ContinuingBelow(d, e, pre, d.vocab + 1), Continuing(d, e, pre));
    }
  }

  lemma {:induction false} OutcomesBelowPartition(d: Decoder, e: Event, pre: seq<int>, k: nat, weight: seq<int> -> real)
    requires WellFormed(d) && |pre| < |d.p| && k <= d.vocab + 1
    requires forall i :: 0 <= i < |pre| ==> HIDDEN <= pre[i] < d.vocab
    requires WeighsOutcomes(d, e, weight)
    ensures TotalUpTo(d, pre, k, weight) == Probability(d.p, d.vocab, ContinuingBelow(d, e, pre, k))
    decreases |d.p| - |pre|, k
  {
    var upTo := ContinuingBelow(d, e, pre, k);
    if k == 0 {
      forall t | Draw(d.vocab, |d.p|, t)
        ensures !upTo(t)
      {
        assert HIDDEN <= Shown(d, t)[|pre|];
      }
      ImpossibleEvent(d.p, d.vocab, upTo);
    } else {
      OutcomesBelowPartition(d, e, pre, k - 1, weight);
      var next := pre + [k - 2];
      OutcomesPartition(d, e, next, weight);
      var before, here := ContinuingBelow(d, e, pre, k - 1), Continuing(d, e, next);
      forall t | Draw(d.vocab, |d.p|, t)
        ensures (upTo(t) <==> before(t) || here(t)) && !(before(t) && here(t))
      {
        NextEntry(Shown(d, t), pre, k - 2);
      }
      MassSplits(d.p, d.vocab, [], upTo, before, here);
    }
  }

  lemma NextEntry(o: seq<int>, pre: seq<int>, x: int)
    requires |pre| < |o|
    ensures pre + [x] <= o <==> pre <= o && o[|pre|] == x
  {
    if pre <= o && o[|pre|] == x {
      assert o[..|pre| + 1] == pre + [x];
    }
    if pre + [x] <= o {
      assert o[|pre|] == (pre + [x])[|pre|];
    }
  }

  // ---------------------------------------------------------------- the law of the closed forms

  ghost predicate ShowsSomething(d: Decoder, o: seq<int>)
    requires IsOutcome(d, o)
  {
    exists i :: 0 <= i < |o| && o[i] != HIDDEN
  }

  /** The query the replay poses for outcome o. */
  ghost function QueryOf(d: Decoder, o: seq<int>): (q: Query)
    requires WellFormed(d) && IsOutcome(d, o) && ShowsSomething(d, o)
    ensures WellPosed(q)
  {
    Query(d,
          seq(|o|, i requires 0 <= i < |o| => if o[i] == HIDDEN then 0 else o[i]),
          seq(|o|, i requires 0 <= i < |o| => o[i] != HIDDEN))
  }

  /** The closed form of a visible outcome; outcomes that reveal an unmasked position or a MASK
      token are not transitions. */
  ghost function ClosedForm(d: Decoder, o: seq<int>): real
    requires WellFormed(d)
  {
    if IsOutcome(d, o) && ShowsSomething(d, o) && Revealing(QueryOf(d, o)) then Joint(QueryOf(d, o)) else 0.0
  }

  ghost function Seen(d: Decoder): Event
    requires WellFormed(d)
  {
    t => Draw(d.vocab, |d.p|, t) && ShowsSomething(d, Shown(d, t))
  }

  /** Nothing becomes visible: every transferred proposal was MASK. */
  ghost function Unseen(d: Decoder): Event
    requires WellFormed(d)
  {
    t => Draw(d.vocab, |d.p|, t) && !ShowsSomething(d, Shown(d, t))
  }

  lemma ShowsExactlyMeansShown(d: Decoder, o: seq<int>, t: seq<nat>)
    requires WellFormed(d) && IsOutcome(d, o) && ShowsSomething(d, o) && Draw(d.vocab, |d.p|, t)
    ensures ShowsExactly(QueryOf(d, o), t) <==> Shown(d, t) == o
  {
    var q, s := QueryOf(d, o), Shown(d, t);
    if ShowsExactly(q, t) {
      assert forall i :: 0 <= i < |o| ==> s[i] == o[i];
    }
    if s == o {
      forall i: nat | i < |d.p|
        ensures (Visible(d, t, i) <==> q.selected[i]) && (q.selected[i] ==> t[i] == q.targets[i])
      {
        assert s[i] == o[i];
      }
    }
  }

  lemma ShownIsRevealing(d: Decoder, t: seq<nat>)
    requires WellFormed(d) && Draw(d.vocab, |d.p|, t) && ShowsSomething(d, Shown(d, t))
    ensures Revealing(QueryOf(d, Shown(d, t)))
  {
    var o := Shown(d, t);
    var q := QueryOf(d, o);
    var i :| 0 <= i < |o| && o[i] != HIDDEN;
    assert q.selected[i];
    forall i: nat | i < |o| && q.selected[i]
      ensures d.masked[i] && !IsMask(d, q.targets[i])
    {
      assert Visible(d, t, i);
    }
  }

  lemma {:induction false} ClosedFormWeighs(d: Decoder, o: seq<int>)
    requires WellFormed(d) && IsOutcome(d, o)
    ensures ClosedForm(d, o) == Probability(d.p, d.vocab, Continuing(d, Seen(d), o))
  {
    var here := Continuing(d, Seen(d), o);
    if ShowsSomething(d, o) && Revealing(QueryOf(d, o)) {
      var q := QueryOf(d, o);
      ClosedFormIsTransitionProbability(q);
      forall t | Draw(d.vocab, |d.p|, t)
        ensures here(t) == Preimage(q)(t)
      {
        ShowsExactlyMeansShown(d, o, t);
        assert o <= Shown(d, t) <==> o == Shown(d, t);
      }
      SameMass(d.p, d.vocab, [], here, Preimage(q));
    } else {
      forall t | Draw(d.vocab, |d.p|, t)
        ensures !here(t)
      {
        if Seen(d)(t) && o <= Shown(d, t) {
          assert o == Shown(d, t);
          ShownIsRevealing(d, t);
        }
      }
      ImpossibleEvent(d.p, d.vocab, here);
    }
  }

  /** Conservation: the closed forms of all outcomes and the invisible mass sum to one. */
  lemma TransitionLawSumsToOne(d: Decoder)
    requires WellFormed(d)
    ensures Total(d, [], o => ClosedForm(d, o)) + Probability(d.p, d.vocab, Unseen(d)) == 1.0
    ensures d.maskToken.None? && (exists i: nat :: i < |d.masked| && d.masked[i])
        ==> Probability(d.p, d.vocab, Unseen(d)) == 0.0
  {
    var law: seq<int> -> real := o => ClosedForm(d, o);
    forall o | IsOutcome(d, o)
      ensures law(o) == Probability(d.p, d.vocab, Continuing(d, Seen(d), o))
    {
      ClosedFormWeighs(d, o);
    }
    OutcomesPartition(d, Seen(d), [], law);
    SameMass(d.p, d.vocab, [], Continuing(d, Seen(d), []), Seen(d));
    var whole: Event := t => true;
    MassSplits(d.p, d.vocab, [], whole, Seen(d), Unseen(d));
    CertainEvent(d.p, d.vocab, whole);
    if d.maskToken.None? && exists i: nat :: i < |d.masked| && d.masked[i] {
      forall t | Draw(d.vocab, |d.p|, t)
        ensures !Unseen(d)(t)
      {
        SomethingIsTransferred(d, t);
      }
      ImpossibleEvent(d.p, d.vocab, Unseen(d));
    }
  }

  lemma SomethingIsTransferred(d: Decoder, t: seq<nat>)
    requires WellFormed(d) && Draw(d.vocab, |d.p|, t) && d.maskToken.None?
    requires exists i: nat :: i < |d.masked| && d.masked[i]
    ensures ShowsSomething(d, Shown(d, t))
  {
    var i: nat;
    if AnyConfident(d, t) {
      i :| i < |d.p| && Confident(d, t, i);
    } else {
      i := BestExists(d, t, |d.p|);
    }
    assert Visible(d, t, i);
    assert Shown(d, t)[i] != HIDDEN;
  }

  lemma {:induction false} BestExists(d: Decoder, t: seq<nat>, n: nat) returns (b: nat)
    requires WellFormed(d) && Draw(d.vocab, |d.p|, t) && n <= |d.p|
    requires exists i: nat :: i < n && d.masked[i]
    ensures b < n && d.masked[b] && forall j: nat :: j < n && d.masked[j] ==> Beats(d, t, b, j)
  {
    if exists i: nat :: i < n - 1 && d.masked[i] {
      b := BestExists(d, t, n - 1);
      if d.masked[n - 1] && !Beats(d, t, b, n - 1) {
        b := n - 1;
      }
    } else {
      b := n - 1;
    }
  }

  // ---------------------------------------------------------------- the score of the backward pass

  /** The code's score of entry v at position i: the gradient of log Joint it backpropagates. */
  function Score(q: Query, i: nat, v: nat): real
    requires WellPosed(q) && i < |q.d.p| && v < q.d.vocab
  {
    var p := q.d.p[i][v];
    if !(q.d.masked[i] && Supported(q)) then 0.0
    else if q.selected[i] then (if v == q.targets[i] then 1.0 else 0.0) - p
    else (if Allowed(q, i, v) then (if Rejection(q, i) == 0.0 then p else p / Rejection(q, i)) else 0.0) - p
  }

  /** Draws in `e` with token v at position i. */
  ghost function With(d: Decoder, e: Event, i: nat, v: nat): Event
    requires WellFormed(d) && i < |d.p|
  {
    t => Draw(d.vocab, |d.p|, t) && e(t) && t[i] == v
  }

  /** Derivative of P(e) with respect to logit v of position i, when each row is a softmax:
      every draw in e contributes its probability times ([t_i = v] - p_i(v)).
      `DerivativeIsCoefficient` says in which sense. */
  ghost function LogitDerivative(d: Decoder, e: Event, i: nat, v: nat): real
    requires WellFormed(d) && i < |d.p| && v < d.vocab
  {
    Probability(d.p, d.vocab, With(d, e, i, v)) - Times(d.p[i][v], Probability(d.p, d.vocab, e))
  }

  /** Moving the logit by log l changes P(e) by (l - 1) times `LogitDerivative`, divided by the scale
      1 + (l - 1) p of the moved row, for every l > 0 and not only in the limit. */
  lemma DerivativeIsCoefficient(d: Decoder, e: Event, i: nat, v: nat, l: real)
    requires WellFormed(d) && i < |d.p| && v < d.vocab && l > 0.0
    ensures var moved := Probability(LogitShift.ShiftedCanvas(d.p, d.vocab, i, v, l), d.vocab, e);
            var change := Times(LogitShift.Scale(d.p[i], v, l), moved - Probability(d.p, d.vocab, e));
            change == Times(l - 1.0, LogitDerivative(d, e, i, v))
  {
    var p := Probability(d.p, d.vocab, e);
    var moved := Probability(LogitShift.ShiftedCanvas(d.p, d.vocab, i, v, l), d.vocab, e);
    var part := Probability(d.p, d.vocab, With(d, e, i, v));
    LogitShift.ShiftedProbability(d.p, d.vocab, e, With(d, e, i, v), i, v, l);
    MoveAlgebra(LogitShift.Scale(d.p[i], v, l), l, d.p[i][v], moved, p, part);
  }

  lemma MoveAlgebra(scale: real, l: real, r: real, moved: real, p: real, part: real)
    requires scale == 1.0 + Times(l - 1.0, r) && Times(scale, moved) == p + Times(l - 1.0, part)
    ensures Times(scale, moved - p) == Times(l - 1.0, part - Times(r, p))
  {
    assert scale * (moved - p) == scale * moved - scale * p;
    assert (1.0 + (l - 1.0) * r) * p == p + (l - 1.0) * (r * p);
    assert (l - 1.0) * (part - r * p) == (l - 1.0) * part - (l - 1.0) * (r * p);
  }

  /** Probability that the outcome of `q` comes about with token v proposed at position i. */
  ghost function JointWith(q: Query, i: nat, v: nat): real
    requires WellPosed(q) && i < |q.d.p|
  {
    Probability(q.d.p, q.d.vocab, With(q.d, Preimage(q), i, v))
  }

  ghost function Narrowed(q: Query, i: nat, v: nat): seq<seq<bool>>
    requires WellPosed(q) && i < |q.d.p| && v < q.d.vocab
  {
    var box := OutcomeBox(q);
    box[i := seq(q.d.vocab, u requires 0 <= u < q.d.vocab => box[i][u] && u == v)]
  }

  lemma {:induction false} RowMassNarrowed(row: seq<real>, keep: seq<bool>, narrow: seq<bool>, v: nat, k: nat)
    requires k <= |row| == |keep| == |narrow| && v < |row|
    requires forall u :: 0 <= u < |row| ==> narrow[u] == (keep[u] && u == v)
    ensures RowMass(row, narrow, k) == if v < k && keep[v] then row[v] else 0.0
  {
    if k > 0 {
      RowMassNarrowed(row, keep, narrow, v, k - 1);
    }
  }

  lemma NarrowedIsBox(q: Query, i: nat, v: nat)
    requires WellPosed(q) && i < |q.d.p| && v < q.d.vocab
    requires IsBox(q.d.p, q.d.vocab, Preimage(q), OutcomeBox(q))
    ensures IsBox(q.d.p, q.d.vocab, With(q.d, Preimage(q), i, v), Narrowed(q, i, v))
  {
    var box, narrow := OutcomeBox(q), Narrowed(q, i, v);
    forall t | Draw(q.d.vocab, |q.d.p|, t)
      ensures With(q.d, Preimage(q), i, v)(t) <==> InBox(narrow, t)
    {
      assert Preimage(q)(t) <==> InBox(box, t);
      assert InBox(narrow, t) ==> narrow[i][t[i]];
      assert forall j :: 0 <= j < |t| && narrow[j][t[j]] ==> box[j][t[j]];
    }
  }

  /** On a supported query both the preimage and its part with token v at i are boxes that differ
      in one factor. */
  lemma FactorAt(q: Query, i: nat, v: nat) returns (rest: real)
    requires WellPosed(q) && Revealing(q) && Supported(q) && i < |q.d.p| && v < q.d.vocab
    ensures Joint(q) == Times(rest, RowMass(q.d.p[i], OutcomeBox(q)[i], q.d.vocab))
    ensures JointWith(q, i, v)
         == Times(rest, if OutcomeBox(q)[i][v] then q.d.p[i][v] else 0.0)
  {
    var d, box, narrow := q.d, OutcomeBox(q), Narrowed(q, i, v);
    rest := ProductWithout(d.p, d.vocab, box, i, 0);
    assert Joint(q) == BoxProduct(d.p, d.vocab, box, 0) by {
      PreimageMass(q);
      BoxMass(q);
    }
    TakeOutFactor(d.p, d.vocab, box, i, 0);
    assert JointWith(q, i, v) == BoxProduct(d.p, d.vocab, narrow, 0) by {
      PreimageMass(q);
      NarrowedIsBox(q, i, v);
      MassOfBox(d.p, d.vocab, [], With(d, Preimage(q), i, v), narrow);
    }
    TakeOutFactor(d.p, d.vocab, narrow, i, 0);
    SameWithout(d.p, d.vocab, box, narrow, i, 0);
    RowMassNarrowed(d.p[i], box[i], narrow[i], v, d.vocab);
  }

  lemma SelectedScoreAlgebra(joint: real, part: real, score: real, rest: real, chosen: real, p: real, hit: bool)
    requires hit ==> p == chosen
    requires joint == Times(rest, chosen) && part == Times(rest, if hit then p else 0.0)
    requires score == (if hit then 1.0 else 0.0) - p
    ensures Times(joint, score) == part - Times(p, joint)
  {
  }

  lemma RejectedScoreAlgebra(joint: real, part: real, score: real, rest: real, rejection: real, p: real, hit: bool)
    requires rejection != 0.0
    requires joint == Times(rest, rejection) && part == Times(rest, if hit then p else 0.0)
    requires score == (if hit then p / rejection else 0.0) - p
    ensures Times(joint, score) == part - Times(p, joint)
  {
    var x := p / rejection;
    assert rejection * x == p;
    assert joint * x == rest * (rejection * x) == rest * p;
  }

  /** The score times a product with factor i of the box, in the three cases of position i. */
  lemma ScoreAgainstBox(q: Query, i: nat, v: nat, joint: real, part: real, rest: real)
    requires WellPosed(q) && Supported(q) && i < |q.d.p| && v < q.d.vocab
    requires q.selected[i] ==> q.d.masked[i]
    requires joint == Times(rest, RowMass(q.d.p[i], OutcomeBox(q)[i], q.d.vocab))
    requires part == Times(rest, if OutcomeBox(q)[i][v] then q.d.p[i][v] else 0.0)
    ensures Times(joint, Score(q, i, v)) == part - Times(q.d.p[i][v], joint)
  {
    var row, score := q.d.p[i], Score(q, i, v);
    assert |row| == q.d.vocab;
    if q.selected[i] {
      RowMassOnly(row, q.targets[i], q.d.vocab);
      SelectedScoreAlgebra(joint, part, score, rest, Chosen(q, i), row[v], v == q.targets[i]);
    } else if q.d.masked[i] {
      assert Rejected(q, i);
      RejectedScoreAlgebra(joint, part, score, rest, Rejection(q, i), row[v], Allowed(q, i, v));
    }
  }

  lemma SupportedScore(q: Query, i: nat, v: nat)
    requires WellPosed(q) && Revealing(q) && Supported(q) && i < |q.d.p| && v < q.d.vocab
    ensures Times(Joint(q), Score(q, i, v)) == JointWith(q, i, v) - Times(q.d.p[i][v], Joint(q))
  {
    var rest := FactorAt(q, i, v);
    ScoreAgainstBox(q, i, v, Joint(q), JointWith(q, i, v), rest);
  }

  lemma UnsupportedScore(q: Query, i: nat, v: nat)
    requires WellPosed(q) && Revealing(q) && !Supported(q) && i < |q.d.p| && v < q.d.vocab
    ensures Joint(q) == 0.0 && JointWith(q, i, v) == 0.0
  {
    ClosedFormIsTransitionProbability(q);
    InsideNullEvent(q.d.p, q.d.vocab, With(q.d, Preimage(q), i, v), Preimage(q));
  }

  /** Likelihood times score is the derivative of the likelihood, at every position and token:
      masked or not, supported or not. */
  lemma ScoreIsDerivative(q: Query, i: nat, v: nat)
    requires WellPosed(q) && Revealing(q) && i < |q.d.p| && v < q.d.vocab
    ensures Times(Joint(q), Score(q, i, v)) == LogitDerivative(q.d, Preimage(q), i, v)
  {
    assert Probability(q.d.p, q.d.vocab, Preimage(q)) == Joint(q) by {
      ClosedFormIsTransitionProbability(q);
    }
    assert Times(Joint(q), Score(q, i, v)) == JointWith(q, i, v) - Times(q.d.p[i][v], Joint(q)) by {
      if Supported(q) {
        SupportedScore(q, i, v);
      } else {
        UnsupportedScore(q, i, v);
      }
    }
  }

  /** The same query after logit v of position i was moved by log l. */
  ghost function MovedQuery(q: Query, i: nat, v: nat, l: real): (moved: Query)
    requires WellPosed(q) && i < |q.d.p| && v < q.d.vocab && l > 0.0
    ensures WellPosed(moved)
  {
    q.(d := q.d.(p := LogitShift.ShiftedCanvas(q.d.p, q.d.vocab, i, v, l)))
  }

  /** What the score says about the closed form itself: as long as moving the logit does not change which
      proposals give the outcome, the likelihood moves by (l - 1) times likelihood times score over the scale. */
  lemma ScoreMovesLikelihood(q: Query, i: nat, v: nat, l: real)
    requires WellPosed(q) && Revealing(q) && i < |q.d.p| && v < q.d.vocab && l > 0.0
    requires SameOnDraws(q.d.p, q.d.vocab, Preimage(MovedQuery(q, i, v, l)), Preimage(q))
    ensures Times(LogitShift.Scale(q.d.p[i], v, l), Joint(MovedQuery(q, i, v, l)) - Joint(q))
         == Times(l - 1.0, Times(Joint(q), Score(q, i, v)))
  {
    var moved := MovedQuery(q, i, v, l);
    ClosedFormIsTransitionProbability(q);
    ClosedFormIsTransitionProbability(moved);
    SameMass(moved.d.p, q.d.vocab, [], Preimage(moved), Preimage(q));
    DerivativeIsCoefficient(q.d, Preimage(q), i, v, l);
    ScoreIsDerivative(q, i, v);
  }

  ghost function ScoreRowSum(q: Query, i: nat, k: nat): real
    requires WellPosed(q) && i < |q.d.p| && k <= q.d.vocab
  {
    if k == 0 then 0.0 else ScoreRowSum(q, i, k - 1) + Score(q, i, k - 1)
  }

  lemma {:induction false} ScoreRowPrefix(q: Query, i: nat, k: nat)
    requires WellPosed(q) && i < |q.d.p| && k <= q.d.vocab && q.d.masked[i] && Supported(q)
    ensures var row := q.d.p[i];
            |row| == q.d.vocab
            && ScoreRowSum(q, i, k)
            == (if q.selected[i] then (if q.targets[i] < k then 1.0 else 0.0)
                else RowMass(row, AllowedRow(q, i), k) / Rejection(q, i))
             - RowMass(row, Always(q.d.vocab), k)
  {
    if k > 0 {
      ScoreRowPrefix(q, i, k - 1);
      if !q.selected[i] {
        assert Rejected(q, i);
        AddQuotients(RowMass(q.d.p[i], AllowedRow(q, i), k - 1), q.d.p[i][k - 1], Rejection(q, i));
      }
    }
  }

  lemma AddQuotients(a: real, b: real, c: real)
    requires c != 0.0
    ensures a / c + b / c == (a + b) / c
  {
  }

  /** The score of a masked position sums to zero over the vocabulary. */
  lemma ScoreRowSumsToZero(q: Query, i: nat)
    requires WellPosed(q) && i < |q.d.p| && q.d.masked[i] && Supported(q)
    ensures ScoreRowSum(q, i, q.d.vocab) == 0.0
  {
    ScoreRowPrefix(q, i, q.d.vocab);
    assert q.selected[i] || Rejected(q, i);
    var row := q.d.p[i];
    assert RowMass(row, Always(|row|), |row|) == 1.0 && |row| == q.d.vocab;
    if !q.selected[i] {
      SelfQuotient(Rejection(q, i));
    }
  }

  lemma SelfQuotient(x: real)
    requires x != 0.0
    ensures x / x == 1.0
  {
  }

  // ---------------------------------------------------------------- the expected score

  /** Likelihood of an outcome times the score the code computes for it. */
  ghost function ScoreWeight(d: Decoder, o: seq<int>, i: nat, v: nat): real
    requires WellFormed(d) && i < |d.p| && v < d.vocab
  {
    if IsOutcome(d, o) && ShowsSomething(d, o) && Revealing(QueryOf(d, o))
    then Times(Joint(QueryOf(d, o)), Score(QueryOf(d, o), i, v)) else 0.0
  }

  lemma ScoreWeighs(d: Decoder, o: seq<int>, i: nat, v: nat)
    requires WellFormed(d) && IsOutcome(d, o) && i < |d.p| && v < d.vocab
    ensures ScoreWeight(d, o, i, v)
         == Probability(d.p, d.vocab, Continuing(d, With(d, Seen(d), i, v), o))
          - Times(d.p[i][v], Probability(d.p, d.vocab, Continuing(d, Seen(d), o)))
  {
    var here, part := Continuing(d, Seen(d), o), Continuing(d, With(d, Seen(d), i, v), o);
    ClosedFormWeighs(d, o);
    if ShowsSomething(d, o) && Revealing(QueryOf(d, o)) {
      var q := QueryOf(d, o);
      ClosedFormIsTransitionProbability(q);
      ScoreIsDerivative(q, i, v);
      forall t | Draw(d.vocab, |d.p|, t)
        ensures part(t) == With(d, Preimage(q), i, v)(t)
      {
        ShowsExactlyMeansShown(d, o, t);
        assert o <= Shown(d, t) <==> o == Shown(d, t);
      }
      SameMass(d.p, d.vocab, [], part, With(d, Preimage(q), i, v));
    } else {
      InsideNullEvent(d.p, d.vocab, part, here);
    }
  }

  lemma {:induction false} TotalIsLinear(
      d: Decoder, pre: seq<int>, c: real, w: seq<int> -> real, a: seq<int> -> real, b: seq<int> -> real)
    requires |pre| <= |d.p| && forall i :: 0 <= i < |pre| ==> HIDDEN <= pre[i] < d.vocab
    requires forall o :: IsOutcome(d, o) ==> w(o) == a(o) - Times(c, b(o))
    ensures Total(d, pre, w) == Total(d, pre, a) - Times(c, Total(d, pre, b))
    decreases |d.p| - |pre|, d.vocab + 2
  {
    if |pre| < |d.p| {
      TotalUpToIsLinear(d, pre, d.vocab + 1, c, w, a, b);
    }
  }

  lemma {:induction false} TotalUpToIsLinear(
      d: Decoder, pre: seq<int>, k: nat, c: real, w: seq<int> -> real, a: seq<int> -> real, b: seq<int> -> real)
    requires |pre| < |d.p| && k <= d.vocab + 1 && forall i :: 0 <= i < |pre| ==> HIDDEN <= pre[i] < d.vocab
    requires forall o :: IsOutcome(d, o) ==> w(o) == a(o) - Times(c, b(o))
    ensures TotalUpTo(d, pre, k, w) == TotalUpTo(d, pre, k, a) - Times(c, TotalUpTo(d, pre, k, b))
    decreases |d.p| - |pre|, k
  {
    if k > 0 {
      TotalUpToIsLinear(d, pre, k - 1, c, w, a, b);
      TotalIsLinear(d, pre + [k - 2], c, w, a, b);
      Distribute(c, TotalUpTo(d, pre, k - 1, b), Total(d, pre + [k - 2], b));
    }
  }

  lemma Distribute(c: real, x: real, y: real)
    ensures Times(c, x + y) == Times(c, x) + Times(c, y)
  {
  }

  /** P(visible, token v at i) and P(visible) as totals over outcomes. */
  lemma SeenDerivative(d: Decoder, i: nat, v: nat)
    requires WellFormed(d) && i < |d.p| && v < d.vocab
    ensures Total(d, [], o => ScoreWeight(d, o, i, v)) == LogitDerivative(d, Seen(d), i, v)
  {
    var whole, part := Seen(d), With(d, Seen(d), i, v);
    var w: seq<int> -> real := o => ScoreWeight(d, o, i, v);
    var a: seq<int> -> real := o => Probability(d.p, d.vocab, Continuing(d, part, o));
    var b: seq<int> -> real := o => Probability(d.p, d.vocab, Continuing(d, whole, o));
    forall o | IsOutcome(d, o)
      ensures w(o) == a(o) - Times(d.p[i][v], b(o))
    {
      ScoreWeighs(d, o, i, v);
    }
    TotalIsLinear(d, [], d.p[i][v], w, a, b);
    OutcomesPartition(d, part, [], a);
    OutcomesPartition(d, whole, [], b);
    SameMass(d.p, d.vocab, [], Continuing(d, part, []), part);
    SameMass(d.p, d.vocab, [], Continuing(d, whole, []), whole);
  }

  /** Over everything that can happen the derivative of the total probability, one, is zero. */
  lemma DerivativesCancel(d: Decoder, i: nat, v: nat)
    requires WellFormed(d) && i < |d.p| && v < d.vocab
    ensures LogitDerivative(d, Seen(d), i, v) + LogitDerivative(d, Unseen(d), i, v) == 0.0
  {
    var all: Event := t => true;
    var at: Event := t => Draw(d.vocab, |d.p|, t) && t[i] == v;
    CertainEvent(d.p, d.vocab, all);
    DrawAt(d.p, d.vocab, i, v, at);
    MassSplits(d.p, d.vocab, [], all, Seen(d), Unseen(d));
    MassSplits(d.p, d.vocab, [], at, With(d, Seen(d), i, v), With(d, Unseen(d), i, v));
    Distribute(d.p[i][v], Probability(d.p, d.vocab, Seen(d)), Probability(d.p, d.vocab, Unseen(d)));
  }

  /** The expected score over visible outcomes is minus the derivative of the invisible mass, and
      zero when no token is invisible: adding the score introduces no bias of its own. */
  lemma ExpectedScore(d: Decoder, i: nat, v: nat)
    requires WellFormed(d) && i < |d.p| && v < d.vocab
    ensures Total(d, [], o => ScoreWeight(d, o, i, v)) == -LogitDerivative(d, Unseen(d), i, v)
    ensures d.maskToken.None? ==> Total(d, [], o => ScoreWeight(d, o, i, v)) == 0.0
  {
    SeenDerivative(d, i, v);
    DerivativesCancel(d, i, v);
    if d.maskToken.None? {
      if exists j: nat :: j < |d.masked| && d.masked[j] {
        TransitionLawSumsToOne(d);
        InsideNullEvent(d.p, d.vocab, With(d, Unseen(d), i, v), Unseen(d));
      } else {
        assert forall t :: Draw(d.vocab, |d.p|, t) ==> !Seen(d)(t);
        ImpossibleEvent(d.p, d.vocab, Seen(d));
        ImpossibleEvent(d.p, d.vocab, With(d, Seen(d), i, v));
      }
    }
  }
}
