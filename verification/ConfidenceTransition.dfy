/** Likelihood of one parallel denoising step (nemo_rl/algorithms/confidence_transition.py).

    Two descriptions of the same step.  `Transferred` and `Visible` are the decoder of the module's
    docstring: every position of the canvas proposes a token; masked positions whose proposal has
    probability at least the threshold are transferred, or, if there is none, the masked position
    with the most probable proposal, leftmost on ties; a transferred MASK changes nothing visible.
    `Joint` is the closed form the code computes.  The theorems say that the closed form is the
    total probability of all joint proposals with the given visible outcome, that it vanishes
    exactly where the code reports no support, that the law it defines sums to one, and what the
    score used by the backward pass means.

    Probabilities stand for exponentials of the code's log-probabilities: sums of logarithms are
    products here, minus infinity is zero.
 */
module ConfidenceTransition {
  import opened Wrappers

  import opened JointMass

  datatype Decoder = Decoder(
    p: Rows, vocab: nat, masked: seq<bool>, threshold: real, maskToken: Option<int>)

  /** The question put to the closed form: how likely is it that exactly `selected` is revealed,
      with these tokens? */
  datatype Query = Query(d: Decoder, targets: seq<nat>, selected: seq<bool>)

  ghost predicate WellFormed(d: Decoder)
  {
    && Canvas(d.p, d.vocab)
    && |d.masked| == |d.p|
    && d.threshold > 0.0
  }

  ghost predicate WellPosed(q: Query)
  {
    && WellFormed(q.d)
    && |q.targets| == |q.selected| == |q.d.p|
    && forall i :: 0 <= i < |q.targets| ==> q.targets[i] < q.d.vocab
  }

  predicate IsMask(d: Decoder, v: nat)
  {
    d.maskToken.Some? && d.maskToken.value == v
  }

  // ---------------------------------------------------------------- the documented decoder

  ghost predicate Confident(d: Decoder, t: seq<nat>, i: nat)
    requires WellFormed(d) && Draw(d.vocab, |d.p|, t) && i < |d.p|
  {
    d.masked[i] && d.p[i][t[i]] >= d.threshold
  }

  ghost predicate AnyConfident(d: Decoder, t: seq<nat>)
    requires WellFormed(d) && Draw(d.vocab, |d.p|, t)
  {
    exists i: nat :: i < |d.p| && Confident(d, t, i)
  }

  /** Position i beats j: a more probable proposal, or an equally probable one further left. */
  ghost predicate Beats(d: Decoder, t: seq<nat>, i: nat, j: nat)
    requires WellFormed(d) && Draw(d.vocab, |d.p|, t) && i < |d.p| && j < |d.p|
  {
    d.p[i][t[i]] > d.p[j][t[j]] || (d.p[i][t[i]] == d.p[j][t[j]] && i <= j)
  }

  ghost predicate Best(d: Decoder, t: seq<nat>, i: nat)
    requires WellFormed(d) && Draw(d.vocab, |d.p|, t) && i < |d.p|
  {
    d.masked[i] && forall j: nat :: j < |d.p| && d.masked[j] ==> Beats(d, t, i, j)
  }

  ghost predicate Transferred(d: Decoder, t: seq<nat>, i: nat)
    requires WellFormed(d) && Draw(d.vocab, |d.p|, t) && i < |d.p|
  {
    if AnyConfident(d, t) then Confident(d, t, i) else Best(d, t, i)
  }

  ghost predicate Visible(d: Decoder, t: seq<nat>, i: nat)
    requires WellFormed(d) && Draw(d.vocab, |d.p|, t) && i < |d.p|
  {
    Transferred(d, t, i) && !IsMask(d, t[i])
  }

  ghost predicate ShowsExactly(q: Query, t: seq<nat>)
    requires WellPosed(q) && Draw(q.d.vocab, |q.d.p|, t)
  {
    forall i: nat :: i < |q.d.p| ==>
      (Visible(q.d, t, i) <==> q.selected[i]) && (q.selected[i] ==> t[i] == q.targets[i])
  }

  /** The set of joint proposals the decoder maps to the visible outcome of `q`. */
  ghost function Preimage(q: Query): Event
    requires WellPosed(q)
  {
    t => Draw(q.d.vocab, |q.d.p|, t) && ShowsExactly(q, t)
  }

  // ---------------------------------------------------------------- the closed form

  function Chosen(q: Query, i: nat): real
    requires i < |q.d.p| && i < |q.targets| && q.targets[i] < |q.d.p[i]|
  {
    q.d.p[i][q.targets[i]]
  }

  function Count(selected: seq<bool>): nat
  {
    if selected == [] then 0 else (if selected[0] then 1 else 0) + Count(selected[1..])
  }

  /** Least chosen probability among the selected positions before k; None is plus infinity. */
  function SelectedMin(q: Query, k: nat): Option<real>
    requires WellPosed(q) && k <= |q.selected|
  {
    if k == 0 then None
    else
      var m := SelectedMin(q, k - 1);
      if q.selected[k - 1] && (m.None? || Chosen(q, k - 1) < m.value) then Some(Chosen(q, k - 1)) else m
  }

  predicate ThresholdEvent(q: Query)
    requires WellPosed(q)
  {
    var m := SelectedMin(q, |q.selected|);
    m.None? || m.value >= q.d.threshold
  }

  function Cutoff(q: Query): real
    requires WellPosed(q)
  {
    if ThresholdEvent(q) then q.d.threshold else SelectedMin(q, |q.selected|).value
  }

  /** Index of the first selected position; 0 when there is none. */
  function Winner(selected: seq<bool>): nat
  {
    if exists i: nat :: i < |selected| && selected[i] then FirstTrue(selected, 0) else 0
  }

  function FirstTrue(s: seq<bool>, from: nat): (i: nat)
    requires from <= |s| && exists j: nat :: from <= j < |s| && s[j]
    ensures from <= i < |s| && s[i] && forall j: nat :: from <= j < i ==> !s[j]
    decreases |s| - from
  {
    if s[from] then from else FirstTrue(s, from + 1)
  }

  predicate Allowed(q: Query, i: nat, v: nat)
    requires WellPosed(q) && i < |q.d.p| && v < q.d.vocab
  {
    || q.d.p[i][v] < Cutoff(q)
    || (q.d.p[i][v] == Cutoff(q) && !ThresholdEvent(q) && i > Winner(q.selected))
    || (IsMask(q.d, v) && ThresholdEvent(q))
  }

  function AllowedRow(q: Query, i: nat): seq<bool>
    requires WellPosed(q) && i < |q.d.p|
  {
    seq(q.d.vocab, v requires 0 <= v < q.d.vocab => Allowed(q, i, v))
  }

  function Rejection(q: Query, i: nat): real
    requires WellPosed(q) && i < |q.d.p|
  {
    RowMass(q.d.p[i], AllowedRow(q, i), q.d.vocab)
  }

  predicate Rejected(q: Query, i: nat)
    requires i < |q.selected| && i < |q.d.masked|
  {
    q.d.masked[i] && !q.selected[i]
  }

  /** The code's `valid` flag. */
  predicate Supported(q: Query)
    requires WellPosed(q)
  {
    && Count(q.selected) > 0
    && (ThresholdEvent(q) || Count(q.selected) == 1)
    && (forall i: nat :: i < |q.d.p| && Rejected(q, i) ==> Rejection(q, i) != 0.0)
    && (forall i: nat :: i < |q.d.p| && q.selected[i] ==> Chosen(q, i) != 0.0)
  }

  function SelectedFactor(q: Query, i: nat): real
    requires WellPosed(q) && i < |q.d.p|
  {
    if q.selected[i] then Chosen(q, i) else 1.0
  }

  function RejectedFactor(q: Query, i: nat): real
    requires WellPosed(q) && i < |q.d.p|
  {
    if Rejected(q, i) then Rejection(q, i) else 1.0
  }

  function SelectedProduct(q: Query, i: nat): real
    requires WellPosed(q) && i <= |q.d.p|
    decreases |q.d.p| - i
  {
    if i == |q.d.p| then 1.0
    else Times(SelectedFactor(q, i), SelectedProduct(q, i + 1))
  }

  function RejectedProduct(q: Query, i: nat): real
    requires WellPosed(q) && i <= |q.d.p|
    decreases |q.d.p| - i
  {
    if i == |q.d.p| then 1.0
    else Times(RejectedFactor(q, i), RejectedProduct(q, i + 1))
  }

  /** The closed form of the code, as a probability. */
  function Joint(q: Query): real
    requires WellPosed(q)
  {
    if Supported(q) then Times(SelectedProduct(q, 0), RejectedProduct(q, 0)) else 0.0
  }

  // ---------------------------------------------------------------- facts about the pieces

  lemma {:induction false} CountFacts(s: seq<bool>)
    ensures Count(s) == 0 <==> forall i :: 0 <= i < |s| ==> !s[i]
    ensures Count(s) == 1 ==> exists w: nat :: w < |s| && s[w] && forall i :: 0 <= i < |s| && s[i] ==> i == w
    ensures Count(s) > 1 ==> exists a: nat, b: nat :: a < b < |s| && s[a] && s[b]
  {
    if s != [] {
      var rest := s[1..];
      CountFacts(rest);
      assert forall i :: 0 < i < |s| ==> s[i] == rest[i - 1];
      if Count(s) == 1 {
        if s[0] {
          assert forall i :: 0 <= i < |s| && s[i] ==> i == 0;
        } else {
          var w: nat :| w < |rest| && rest[w] && forall i :: 0 <= i < |rest| && rest[i] ==> i == w;
          assert s[w + 1] && forall i :: 0 <= i < |s| && s[i] ==> i == w + 1;
        }
      } else if Count(s) > 1 {
        if Count(rest) > 1 {
          var a: nat, b: nat :| a < b < |rest| && rest[a] && rest[b];
          assert s[a + 1] && s[b + 1] && a + 1 < b + 1;
        } else {
          var w: nat :| w < |rest| && rest[w];
          assert s[0] && s[w + 1];
        }
      }
    }
  }

  lemma {:induction false} SelectedMinIsMin(q: Query, k: nat)
    requires WellPosed(q) && k <= |q.selected|
    ensures var m := SelectedMin(q, k);
            && (m.None? <==> forall i: nat :: i < k ==> !q.selected[i])
            && (m.Some? ==> exists i: nat :: i < k && q.selected[i] && Chosen(q, i) == m.value)
            && (m.Some? ==> forall i: nat :: i < k && q.selected[i] ==> m.value <= Chosen(q, i))
  {
    if k > 0 {
      SelectedMinIsMin(q, k - 1);
      if q.selected[k - 1] {
        assert Chosen(q, k - 1) == Chosen(q, k - 1);
      }
    }
  }

  // ---------------------------------------------------------------- the preimage is a product set

  /** What the closed form lets each position draw. */
  ghost function OutcomeBox(q: Query): (box: seq<seq<bool>>)
    requires WellPosed(q)
    ensures Boxed(q.d.p, q.d.vocab, box)
  {
    seq(|q.d.p|, i requires 0 <= i < |q.d.p| =>
      if q.selected[i] then Only(q.d.vocab, q.targets[i])
      else if q.d.masked[i] then AllowedRow(q, i)
      else Always(q.d.vocab))
  }

  /** A query the replay can pose: something is revealed, only masked positions are revealed, and
      no revealed token is MASK. */
  ghost predicate Revealing(q: Query)
    requires WellPosed(q)
  {
    && (exists i: nat :: i < |q.selected| && q.selected[i])
    && (forall i: nat :: i < |q.selected| && q.selected[i] ==> q.d.masked[i] && !IsMask(q.d, q.targets[i]))
  }

  lemma InOutcomeBox(q: Query, t: seq<nat>)
    requires WellPosed(q) && Draw(q.d.vocab, |q.d.p|, t)
    ensures InBox(OutcomeBox(q), t) <==>
            forall i: nat :: i < |q.d.p| ==>
              && (q.selected[i] ==> t[i] == q.targets[i])
              && (Rejected(q, i) ==> Allowed(q, i, t[i]))
  {
    var box := OutcomeBox(q);
    forall i: nat | i < |q.d.p|
      ensures box[i][t[i]] <==> (q.selected[i] ==> t[i] == q.targets[i]) && (Rejected(q, i) ==> Allowed(q, i, t[i]))
    {
    }
  }

  /** Every revealed token clears the threshold: the decoder shows the outcome exactly on the box. */
  lemma ThresholdPreimageIsBox(q: Query)
    requires WellPosed(q) && Revealing(q) && ThresholdEvent(q)
    ensures IsBox(q.d.p, q.d.vocab, Preimage(q), OutcomeBox(q))
  {
    SelectedMinIsMin(q, |q.selected|);
    forall t | Draw(q.d.vocab, |q.d.p|, t)
      ensures Preimage(q)(t) <==> InBox(OutcomeBox(q), t)
    {
      InOutcomeBox(q, t);
      if Preimage(q)(t) {
        ThresholdShownIsAllowed(q, t);
      } else if InBox(OutcomeBox(q), t) {
        ThresholdAllowedIsShown(q, t);
      }
    }
  }

  lemma ThresholdShownIsAllowed(q: Query, t: seq<nat>)
    requires WellPosed(q) && Revealing(q) && ThresholdEvent(q)
    requires forall i: nat :: i < |q.selected| && q.selected[i] ==> Chosen(q, i) >= q.d.threshold
    requires Draw(q.d.vocab, |q.d.p|, t) && ShowsExactly(q, t)
    ensures forall i: nat :: i < |q.d.p| && Rejected(q, i) ==> Allowed(q, i, t[i])
  {
    var s: nat :| s < |q.selected| && q.selected[s];
    assert Visible(q.d, t, s) && Confident(q.d, t, s);
    forall i: nat | i < |q.d.p| && Rejected(q, i)
      ensures Allowed(q, i, t[i])
    {
      assert !Visible(q.d, t, i);
    }
  }

  lemma ThresholdAllowedIsShown(q: Query, t: seq<nat>)
    requires WellPosed(q) && Revealing(q) && ThresholdEvent(q)
    requires forall i: nat :: i < |q.selected| && q.selected[i] ==> Chosen(q, i) >= q.d.threshold
    requires Draw(q.d.vocab, |q.d.p|, t)
    requires forall i: nat :: i < |q.d.p| && q.selected[i] ==> t[i] == q.targets[i]
    requires forall i: nat :: i < |q.d.p| && Rejected(q, i) ==> Allowed(q, i, t[i])
    ensures ShowsExactly(q, t)
  {
    var s: nat :| s < |q.selected| && q.selected[s];
    assert Confident(q.d, t, s);
    forall i: nat | i < |q.d.p|
      ensures Visible(q.d, t, i) <==> q.selected[i]
    {
      assert q.selected[i] ==> Confident(q.d, t, i);
      assert Rejected(q, i) ==> Allowed(q, i, t[i]);
    }
  }

  /** A single revealed token below the threshold: the fallback, with ties to the left. */
  lemma FallbackPreimageIsBox(q: Query)
    requires WellPosed(q) && Revealing(q) && !ThresholdEvent(q) && Count(q.selected) == 1
    ensures IsBox(q.d.p, q.d.vocab, Preimage(q), OutcomeBox(q))
  {
    SelectedMinIsMin(q, |q.selected|);
    CountFacts(q.selected);
    var w := Winner(q.selected);
    forall t | Draw(q.d.vocab, |q.d.p|, t)
      ensures Preimage(q)(t) <==> InBox(OutcomeBox(q), t)
    {
      InOutcomeBox(q, t);
      if Preimage(q)(t) {
        FallbackShownIsAllowed(q, w, t);
      } else if InBox(OutcomeBox(q), t) {
        FallbackAllowedIsShown(q, w, t);
      }
    }
  }

  ghost predicate FallbackTo(q: Query, w: nat)
    requires WellPosed(q)
  {
    && w < |q.selected| && w == Winner(q.selected)
    && (forall i: nat :: i < |q.selected| ==> (q.selected[i] <==> i == w))
    && !ThresholdEvent(q) && Cutoff(q) == Chosen(q, w) < q.d.threshold
  }

  lemma FallbackShownIsAllowed(q: Query, w: nat, t: seq<nat>)
    requires WellPosed(q) && Revealing(q) && FallbackTo(q, w)
    requires Draw(q.d.vocab, |q.d.p|, t) && ShowsExactly(q, t)
    ensures forall i: nat :: i < |q.d.p| && Rejected(q, i) ==> Allowed(q, i, t[i])
  {
    assert Visible(q.d, t, w);
    assert Best(q.d, t, w);
    forall i: nat | i < |q.d.p| && Rejected(q, i)
      ensures Allowed(q, i, t[i])
    {
      assert Beats(q.d, t, w, i);
    }
  }

  lemma FallbackAllowedIsShown(q: Query, w: nat, t: seq<nat>)
    requires WellPosed(q) && Revealing(q) && FallbackTo(q, w)
    requires Draw(q.d.vocab, |q.d.p|, t)
    requires forall i: nat :: i < |q.d.p| && q.selected[i] ==> t[i] == q.targets[i]
    requires forall i: nat :: i < |q.d.p| && Rejected(q, i) ==> Allowed(q, i, t[i])
    ensures ShowsExactly(q, t)
  {
    assert t[w] == q.targets[w];
    forall i: nat | i < |q.d.p| && q.d.masked[i]
      ensures !Confident(q.d, t, i) && Beats(q.d, t, w, i)
    {
      assert i == w || Rejected(q, i);
    }
    assert !AnyConfident(q.d, t) && Best(q.d, t, w);
    BestIsUnique(q.d, t);
  }

  lemma BestIsUnique(d: Decoder, t: seq<nat>)
    requires WellFormed(d) && Draw(d.vocab, |d.p|, t)
    ensures forall i: nat, j: nat :: i < |d.p| && j < |d.p| && Best(d, t, i) && Best(d, t, j) ==> i == j
  {
    forall i: nat, j: nat | i < |d.p| && j < |d.p| && Best(d, t, i) && Best(d, t, j)
      ensures i == j
    {
      assert Beats(d, t, i, j) && Beats(d, t, j, i);
    }
  }

  /** Several tokens appear together only by clearing the threshold; the fallback shows one. */
  lemma ShownTogetherClearThreshold(q: Query, t: seq<nat>)
    requires WellPosed(q) && Count(q.selected) > 1
    requires Draw(q.d.vocab, |q.d.p|, t) && ShowsExactly(q, t)
    ensures ThresholdEvent(q)
  {
    SelectedMinIsMin(q, |q.selected|);
    CountFacts(q.selected);
    BestIsUnique(q.d, t);
    var a: nat, b: nat :| a < b < |q.selected| && q.selected[a] && q.selected[b];
    assert Visible(q.d, t, a) && Visible(q.d, t, b);
    assert AnyConfident(q.d, t);
    forall i: nat | i < |q.selected| && q.selected[i]
      ensures Chosen(q, i) >= q.d.threshold
    {
      assert Visible(q.d, t, i);
    }
  }

  lemma FactorOfBox(q: Query, i: nat)
    requires WellPosed(q) && i < |q.d.p| && (q.selected[i] ==> q.d.masked[i])
    ensures RowMass(q.d.p[i], OutcomeBox(q)[i], q.d.vocab) == Times(SelectedFactor(q, i), RejectedFactor(q, i))
  {
    assert |q.d.p[i]| == q.d.vocab;
    RowMassOnly(q.d.p[i], q.targets[i], q.d.vocab);
  }

  lemma {:induction false} ProductsAgree(q: Query, i: nat)
    requires WellPosed(q) && i <= |q.d.p|
    requires forall j: nat :: j < |q.selected| && q.selected[j] ==> q.d.masked[j]
    ensures BoxProduct(q.d.p, q.d.vocab, OutcomeBox(q), i) == Times(SelectedProduct(q, i), RejectedProduct(q, i))
    decreases |q.d.p| - i
  {
    if i < |q.d.p| {
      ProductsAgree(q, i + 1);
      FactorOfBox(q, i);
      Interleave(SelectedFactor(q, i), SelectedProduct(q, i + 1), RejectedFactor(q, i), RejectedProduct(q, i + 1));
    }
  }

  lemma Interleave(a: real, s: real, b: real, r: real)
    ensures Times(Times(a, s), Times(b, r)) == Times(Times(a, b), Times(s, r))
  {
    assert (a * s) * (b * r) == a * (s * (b * r)) == a * (b * (s * r)) == (a * b) * (s * r);
  }

  lemma {:induction false} ProductsNonZero(q: Query, i: nat)
    requires WellPosed(q) && i <= |q.d.p|
    ensures SelectedProduct(q, i) >= 0.0 && RejectedProduct(q, i) >= 0.0
    ensures SelectedProduct(q, i) == 0.0 <==> exists j: nat :: i <= j < |q.d.p| && q.selected[j] && Chosen(q, j) == 0.0
    ensures RejectedProduct(q, i) == 0.0 <==>
              exists j: nat :: i <= j < |q.d.p| && Rejected(q, j) && Rejection(q, j) == 0.0
    decreases |q.d.p| - i
  {
    if i < |q.d.p| {
      ProductsNonZero(q, i + 1);
      RowMassNonNegative(q.d.p[i], AllowedRow(q, i), q.d.vocab);
      ZeroProduct(SelectedFactor(q, i), SelectedProduct(q, i + 1));
      ZeroProduct(RejectedFactor(q, i), RejectedProduct(q, i + 1));
    }
  }

  lemma ZeroProduct(a: real, b: real)
    requires a >= 0.0 && b >= 0.0
    ensures Times(a, b) >= 0.0 && (Times(a, b) == 0.0 <==> a == 0.0 || b == 0.0)
  {
  }

  lemma PreimageMass(q: Query)
    requires WellPosed(q) && Revealing(q) && (ThresholdEvent(q) || Count(q.selected) == 1)
    ensures IsBox(q.d.p, q.d.vocab, Preimage(q), OutcomeBox(q))
    ensures Probability(q.d.p, q.d.vocab, Preimage(q)) == Times(SelectedProduct(q, 0), RejectedProduct(q, 0))
  {
    if ThresholdEvent(q) {
      ThresholdPreimageIsBox(q);
    } else {
      FallbackPreimageIsBox(q);
    }
    BoxMass(q);
    ProductsAgree(q, 0);
  }

  lemma BoxMass(q: Query)
    requires WellPosed(q) && IsBox(q.d.p, q.d.vocab, Preimage(q), OutcomeBox(q))
    ensures Probability(q.d.p, q.d.vocab, Preimage(q)) == BoxProduct(q.d.p, q.d.vocab, OutcomeBox(q), 0)
  {
    MassOfBox(q.d.p, q.d.vocab, [], Preimage(q), OutcomeBox(q));
  }

  lemma ImpossiblePreimage(q: Query)
    requires WellPosed(q) && !ThresholdEvent(q) && Count(q.selected) > 1
    ensures Probability(q.d.p, q.d.vocab, Preimage(q)) == 0.0
  {
    forall t | Draw(q.d.vocab, |q.d.p|, t)
      ensures !Preimage(q)(t)
    {
      if ShowsExactly(q, t) {
        ShownTogetherClearThreshold(q, t);
      }
    }
    ImpossibleEvent(q.d.p, q.d.vocab, Preimage(q));
  }

  /** The marginalisation theorem: the closed form is the probability that independent proposals
      make the decoder show exactly this outcome, and it is zero exactly where the code reports no
      support. */
  lemma ClosedFormIsTransitionProbability(q: Query)
    requires WellPosed(q) && Revealing(q)
    ensures Joint(q) == Probability(q.d.p, q.d.vocab, Preimage(q))
    ensures Joint(q) == 0.0 <==> !Supported(q)
  {
    CountFacts(q.selected);
    ProductsNonZero(q, 0);
    ZeroProduct(SelectedProduct(q, 0), RejectedProduct(q, 0));
    if ThresholdEvent(q) || Count(q.selected) == 1 {
      PreimageMass(q);
    } else {
      ImpossiblePreimage(q);
    }
  }

  /** Outside `Revealing`: no proposal shows a token at an unmasked position, or a MASK. */
  lemma NotRevealingImpossible(q: Query)
    requires WellPosed(q) && !Revealing(q) && exists i: nat :: i < |q.selected| && q.selected[i]
    ensures Probability(q.d.p, q.d.vocab, Preimage(q)) == 0.0
  {
    var i: nat :| i < |q.selected| && q.selected[i] && !(q.d.masked[i] && !IsMask(q.d, q.targets[i]));
    forall t | Draw(q.d.vocab, |q.d.p|, t)
      ensures !Preimage(q)(t)
    {
      assert !(Visible(q.d, t, i) && t[i] == q.targets[i]);
    }
    ImpossibleEvent(q.d.p, q.d.vocab, Preimage(q));
  }

  /** Position i has a token of positive probability below x, or MASK when `mask` counts, or equal to x when
      `tie` does. */
  ghost predicate HasBelow(q: Query, i: nat, x: real, mask: bool, tie: bool)
    requires WellPosed(q) && i < |q.d.p|
  {
    exists v: nat :: v < q.d.vocab && q.d.p[i][v] > 0.0 &&
      (q.d.p[i][v] < x || (mask && IsMask(q.d, v)) || (tie && q.d.p[i][v] == x))
  }

  /** All revealed tokens clear the threshold, and every other masked position can stay below it or draw MASK. */
  ghost predicate CanClear(q: Query)
    requires WellPosed(q)
  {
    && (forall i: nat :: i < |q.d.p| && q.selected[i] ==> Chosen(q, i) >= q.d.threshold)
    && (forall i: nat :: i < |q.d.p| && Rejected(q, i) ==> HasBelow(q, i, q.d.threshold, true, false))
  }

  /** Position w alone is revealed with a positive probability below the threshold, and every other masked
      position can draw something less probable, or as probable if it lies to the right of w. */
  ghost predicate CanFallBack(q: Query, w: nat)
    requires WellPosed(q)
  {
    && w < |q.d.p| && q.selected[w] && (forall i: nat :: i < |q.d.p| && q.selected[i] ==> i == w)
    && 0.0 < Chosen(q, w) < q.d.threshold
    && (forall i: nat :: i < |q.d.p| && Rejected(q, i) ==> HasBelow(q, i, Chosen(q, w), false, i > w))
  }

  lemma {:induction false} RowMassPositive(row: seq<real>, keep: seq<bool>, k: nat)
    requires k <= |row| == |keep| && forall v :: 0 <= v < |row| ==> row[v] >= 0.0
    ensures RowMass(row, keep, k) >= 0.0
    ensures RowMass(row, keep, k) != 0.0 <==> exists v: nat :: v < k && keep[v] && row[v] > 0.0
  {
    if k > 0 {
      RowMassPositive(row, keep, k - 1);
    }
  }

  lemma RejectionPositive(q: Query, i: nat)
    requires WellPosed(q) && i < |q.d.p|
    ensures Rejection(q, i) != 0.0 <==>
            HasBelow(q, i, Cutoff(q), ThresholdEvent(q), !ThresholdEvent(q) && i > Winner(q.selected))
  {
    RowMassPositive(q.d.p[i], AllowedRow(q, i), q.d.vocab);
    if Rejection(q, i) != 0.0 {
      var v: nat :| v < q.d.vocab && AllowedRow(q, i)[v] && q.d.p[i][v] > 0.0;
      assert Allowed(q, i, v);
    }
    if v: nat :| v < q.d.vocab && q.d.p[i][v] > 0.0 && Allowed(q, i, v) {
      assert AllowedRow(q, i)[v];
    }
  }

  /** The code's `valid` flag, as a condition on probabilities, threshold and positions. */
  lemma SupportedMeans(q: Query)
    requires WellPosed(q) && exists i: nat :: i < |q.selected| && q.selected[i]
    ensures Supported(q) <==> CanClear(q) || exists w: nat :: CanFallBack(q, w)
  {
    CountFacts(q.selected);
    SelectedMinIsMin(q, |q.selected|);
    forall i: nat | i < |q.d.p|
      ensures Rejection(q, i) != 0.0 <==>
              HasBelow(q, i, Cutoff(q), ThresholdEvent(q), !ThresholdEvent(q) && i > Winner(q.selected))
    {
      RejectionPositive(q, i);
    }
    if ThresholdEvent(q) {
      SupportedByThreshold(q);
    } else {
      SupportedByFallback(q);
    }
  }

  ghost predicate RejectionsPositive(q: Query)
    requires WellPosed(q)
  {
    forall i: nat :: i < |q.d.p| ==>
      (Rejection(q, i) != 0.0 <==>
       HasBelow(q, i, Cutoff(q), ThresholdEvent(q), !ThresholdEvent(q) && i > Winner(q.selected)))
  }

  lemma SupportedByThreshold(q: Query)
    requires WellPosed(q) && ThresholdEvent(q) && Count(q.selected) > 0 && RejectionsPositive(q)
    ensures Supported(q) <==> CanClear(q)
    ensures !exists w: nat :: CanFallBack(q, w)
  {
    SelectedMinIsMin(q, |q.selected|);
  }

  lemma SupportedByFallback(q: Query)
    requires WellPosed(q) && !ThresholdEvent(q) && Count(q.selected) > 0 && RejectionsPositive(q)
    ensures Supported(q) <==> exists w: nat :: CanFallBack(q, w)
    ensures !CanClear(q)
  {
    SelectedMinIsMin(q, |q.selected|);
    CountFacts(q.selected);
    var w := Winner(q.selected);
    if Count(q.selected) == 1 {
      assert forall i: nat :: i < |q.selected| && q.selected[i] ==> i == w;
      assert Cutoff(q) == Chosen(q, w);
      assert Supported(q) <==> CanFallBack(q, w);
    }
  }

  /** Exactly when the closed form is the transition probability, over all queries that reveal something: when
      only masked positions and non-MASK tokens are revealed, or when the tokens could neither all clear the
      threshold nor come from the fallback. */
  lemma ClosedFormExactlyWhen(q: Query)
    requires WellPosed(q) && exists i: nat :: i < |q.selected| && q.selected[i]
    ensures Joint(q) == Probability(q.d.p, q.d.vocab, Preimage(q))
       <==> Revealing(q) || !(CanClear(q) || exists w: nat :: CanFallBack(q, w))
  {
    CountFacts(q.selected);
    ProductsNonZero(q, 0);
    ZeroProduct(SelectedProduct(q, 0), RejectedProduct(q, 0));
    SupportedMeans(q);
    if Revealing(q) {
      ClosedFormIsTransitionProbability(q);
    } else {
      NotRevealingImpossible(q);
    }
  }

  /** A revealed MASK token over the threshold: the decoder never shows it, the closed form gives it the
      probability of drawing it. */
  lemma MaskTargetIsNotCaught()
    ensures var q := Query(Decoder([[0.05, 0.95]], 2, [true], 0.9, Some(1)), [1], [true]);
            WellPosed(q) && Supported(q) && Joint(q) == 0.95 && Probability(q.d.p, q.d.vocab, Preimage(q)) == 0.0
  {
    var row := [0.05, 0.95];
    var d := Decoder([row], 2, [true], 0.9, Some(1));
    var q := Query(d, [1], [true]);
    assert RowMass(row, Always(2), 2) == RowMass(row, Always(2), 1) + 0.95;
    assert RowMass(row, Always(2), 1) == RowMass(row, Always(2), 0) + 0.05;
    assert Distribution(row);
    assert WellPosed(q);
    assert q.selected[0] && IsMask(d, q.targets[0]);
    CountFacts(q.selected);
    SelectedMinIsMin(q, 1);
    assert SelectedProduct(q, 0) == Times(0.95, SelectedProduct(q, 1));
    assert RejectedProduct(q, 0) == Times(1.0, RejectedProduct(q, 1));
    NotRevealingImpossible(q);
  }
}
