/** Where a sample's completion lies: the scoring mask, the check that it is one span, and the starts
    and lengths taken from it (nemo_rl/algorithms/diffu_grpo_logprobs.py, lines 40-127). */
module CompletionSpan {

  /** One row of the batch.  `generated` is its token mask, `kept` its sample mask. */
  datatype Sample = Sample(tokens: seq<int>, length: nat, generated: seq<bool>, kept: bool)

  /** The tokens that count: generated ones within the length of a sample that is kept. */
  function ScoreMask(s: Sample): (m: seq<bool>)
    requires |s.generated| == |s.tokens|
    ensures |m| == |s.tokens|
    ensures forall i :: 0 <= i < |m| && m[i] ==> s.kept && i < s.length && s.generated[i]
    ensures forall i :: 0 <= i < |m| && s.kept && i < s.length && s.generated[i] ==> m[i]
  {
    seq(|s.tokens|, i requires 0 <= i < |s.tokens| => s.generated[i] && i < s.length && s.kept)
  }

  /** Indices of the set entries, in order. */
  function Positions(m: seq<bool>): seq<nat>
  {
    if m == [] then []
    else if m[|m| - 1] then Positions(m[..|m| - 1]) + [|m| - 1]
    else Positions(m[..|m| - 1])
  }

  /** The entries of an interval. */
  ghost predicate Interval(m: seq<bool>)
  {
    forall i, j, k :: 0 <= i <= j <= k < |m| && m[i] && m[k] ==> m[j]
  }

  lemma {:induction false} PositionsAscend(m: seq<bool>)
    ensures forall a :: 0 <= a < |Positions(m)| ==> Positions(m)[a] < |m|
    ensures forall a {:trigger Positions(m)[a]} :: 0 <= a < |Positions(m)| ==> m[Positions(m)[a]]
    ensures forall a, b :: 0 <= a < b < |Positions(m)| ==> Positions(m)[a] < Positions(m)[b]
  {
    if m != [] {
      var rest := m[..|m| - 1];
      PositionsAscend(rest);
      forall a | 0 <= a < |Positions(m)|
        ensures Positions(m)[a] < |m| && m[Positions(m)[a]]
      {
        assert a < |Positions(rest)| ==> Positions(m)[a] == Positions(rest)[a];
      }
      forall a, b | 0 <= a < b < |Positions(m)|
        ensures Positions(m)[a] < Positions(m)[b]
      {
        assert Positions(m)[a] == Positions(rest)[a];
      }
    }
  }

  lemma {:induction false} EveryPosition(m: seq<bool>, i: nat) returns (a: nat)
    requires i < |m| && m[i]
    ensures a < |Positions(m)| && Positions(m)[a] == i
    decreases |m|
  {
    if i == |m| - 1 {
      a := |Positions(m)| - 1;
    } else {
      a := EveryPosition(m[..|m| - 1], i);
    }
  }

  /** Ascending indices rise by at least one each. */
  lemma {:induction false} Spread(ps: seq<nat>, a: nat, b: nat)
    requires forall a, b :: 0 <= a < b < |ps| ==> ps[a] < ps[b]
    requires a <= b < |ps|
    ensures ps[b] - ps[a] >= b - a
    decreases b - a
  {
    if a < b {
      Spread(ps, a, b - 1);
    }
  }

  /** The rows the check accepts: at most one position, or a first and last position as far apart as
      there are positions. */
  predicate OneSpan(m: seq<bool>)
  {
    var ps := Positions(m);
    |ps| <= 1 || ps[|ps| - 1] as int - ps[0] as int + 1 == |ps|
  }

  lemma TightMeansInterval(m: seq<bool>)
    requires OneSpan(m)
    ensures Interval(m)
  {
    var ps := Positions(m);
    PositionsAscend(m);
    forall i, j, k | 0 <= i <= j <= k < |m| && m[i] && m[k]
      ensures m[j]
    {
      var a := EveryPosition(m, i);
      var b := EveryPosition(m, k);
      Spread(ps, 0, a);
      Spread(ps, b, |ps| - 1);
      if i < j < k {
        Spread(ps, a, b);
        var c := a + (j - i);
        Spread(ps, 0, c);
        Spread(ps, c, |ps| - 1);
        assert ps[c] == j;
      }
    }
  }

  lemma {:induction false} IntervalIsTight(m: seq<bool>, a: nat)
    requires Interval(m) && a < |Positions(m)|
    ensures Positions(m)[a] == Positions(m)[0] + a
  {
    var ps := Positions(m);
    PositionsAscend(m);
    if a > 0 {
      IntervalIsTight(m, a - 1);
      assert ps[a - 1] < ps[a];
      assert m[ps[a - 1]] && m[ps[a]] && ps[a - 1] + 1 <= ps[a];
      assert m[ps[a - 1] + 1];
      var b := EveryPosition(m, ps[a - 1] + 1);
      assert b > a - 1;
      assert b <= a;
    }
  }

  /** The check accepts exactly the masks that are intervals. */
  lemma SpanCheckExact(m: seq<bool>)
    ensures OneSpan(m) <==> Interval(m)
  {
    if Interval(m) && |Positions(m)| > 1 {
      IntervalIsTight(m, |Positions(m)| - 1);
    }
    if OneSpan(m) {
      TightMeansInterval(m);
    }
  }

  method ValidateSingleCompletionSpan(masks: seq<seq<bool>>) returns (ok: bool)
    ensures ok <==> forall b :: 0 <= b < |masks| ==> Interval(masks[b])
  {
    for b := 0 to |masks|
      invariant forall x :: 0 <= x < b ==> Interval(masks[x])
    {
      SpanCheckExact(masks[b]);
      var ps := Positions(masks[b]);
      if |ps| <= 1 {
        continue;
      }
      var span := ps[|ps| - 1] as int - ps[0] as int + 1;
      if span != |ps| {
        return false;
      }
    }
    return true;
  }

  // ---------------------------------------------------------------- starts and lengths

  /** Nothing is set. */
  ghost predicate NoneSet(m: seq<bool>)
  {
    forall i :: 0 <= i < |m| ==> !m[i]
  }

  /** i is the first set entry. */
  ghost predicate FirstSet(m: seq<bool>, i: nat)
  {
    i < |m| && m[i] && forall j :: 0 <= j < i ==> !m[j]
  }

  /** i is the last set entry. */
  ghost predicate LastSet(m: seq<bool>, i: nat)
  {
    i < |m| && m[i] && forall j :: i < j < |m| ==> !m[j]
  }

  /** The listed positions are the set entries, so the ends of the list are the ends of the mask. */
  lemma EndsAreEnds(m: seq<bool>)
    ensures Positions(m) == [] <==> NoneSet(m)
    ensures Positions(m) != [] ==> FirstSet(m, Positions(m)[0]) && LastSet(m, Positions(m)[|Positions(m)| - 1])
  {
    var ps := Positions(m);
    PositionsAscend(m);
    forall i: nat | i < |m| && m[i]
      ensures ps != [] && ps[0] <= i <= ps[|ps| - 1]
    {
      var a := EveryPosition(m, i);
      assert ps[0] <= ps[a] <= ps[|ps| - 1];
    }
    if ps != [] {
      assert m[ps[0]] && m[ps[|ps| - 1]];
    }
  }

  function Start(m: seq<bool>): nat
  {
    if Positions(m) == [] then 0 else Positions(m)[0]
  }

  /** Up to and including the last scored token; the whole row if nothing is scored. */
  function CleanLength(m: seq<bool>, length: nat): nat
  {
    if Positions(m) == [] then length else Positions(m)[|Positions(m)| - 1] + 1
  }

  function ResponseLength(m: seq<bool>, length: nat): int
  {
    if Positions(m) == [] then 0 else CleanLength(m, length) as int - Start(m) as int
  }

  /** For an interval, start and length say exactly which tokens are scored, and the clean part ends
      with the last of them. */
  lemma SpanIsMask(m: seq<bool>, length: nat)
    requires Interval(m)
    ensures ResponseLength(m, length) >= 0
    ensures forall i :: 0 <= i < |m| ==> (m[i] <==> Start(m) <= i < Start(m) + ResponseLength(m, length))
    ensures ResponseLength(m, length) > 0 ==> CleanLength(m, length) == Start(m) + ResponseLength(m, length) <= |m|
    ensures length <= |m| ==> CleanLength(m, length) <= |m|
  {
    var ps := Positions(m);
    PositionsAscend(m);
    forall i | 0 <= i < |m|
      ensures m[i] <==> Start(m) <= i < Start(m) + ResponseLength(m, length)
    {
      if m[i] {
        var a := EveryPosition(m, i);
        Spread(ps, 0, a);
        Spread(ps, a, |ps| - 1);
      } else if ps != [] {
        assert m[ps[0]] && m[ps[|ps| - 1]];
      }
    }
    if ps != [] {
      Spread(ps, 0, |ps| - 1);
    }
  }

  method CompletionStarts(masks: seq<seq<bool>>) returns (starts: array<nat>)
    ensures fresh(starts) && starts.Length == |masks|
    ensures forall b :: 0 <= b < |masks| ==> starts[b] == Start(masks[b])
    ensures forall b :: 0 <= b < |masks| ==> if NoneSet(masks[b]) then starts[b] == 0 else FirstSet(masks[b], starts[b])
  {
    forall b | 0 <= b < |masks| { EndsAreEnds(masks[b]); }
    starts := new nat[|masks|](_ => 0);
    for b := 0 to |masks|
      invariant forall x :: 0 <= x < b ==> starts[x] == Start(masks[x])
      invariant forall x :: b <= x < |masks| ==> starts[x] == 0
    {
      var ps := Positions(masks[b]);
      if |ps| > 0 {
        starts[b] := ps[0];
      }
    }
  }

  method ScoringLengths(masks: seq<seq<bool>>, lengths: seq<nat>) returns (cleans: array<nat>)
    requires |lengths| == |masks|
    ensures fresh(cleans) && cleans.Length == |masks|
    ensures forall b :: 0 <= b < |masks| ==> cleans[b] == CleanLength(masks[b], lengths[b])
    ensures forall b :: 0 <= b < |masks| ==>
              if NoneSet(masks[b]) then cleans[b] == lengths[b] else cleans[b] > 0 && LastSet(masks[b], cleans[b] - 1)
  {
    forall b | 0 <= b < |masks| { EndsAreEnds(masks[b]); }
    cleans := new nat[|lengths|](b requires 0 <= b < |lengths| => lengths[b]);
    for b := 0 to |masks|
      invariant forall x :: 0 <= x < b ==> cleans[x] == CleanLength(masks[x], lengths[x])
      invariant forall x :: b <= x < |masks| ==> cleans[x] == lengths[x]
    {
      var ps := Positions(masks[b]);
      if |ps| > 0 {
        cleans[b] := ps[|ps| - 1] + 1;
      }
    }
  }

  method ResponseLengths(masks: seq<seq<bool>>, lengths: seq<nat>, starts: array<nat>, cleans: array<nat>)
    returns (responses: array<int>)
    requires |lengths| == |masks| == starts.Length == cleans.Length
    requires forall b :: 0 <= b < |masks| ==>
              starts[b] == Start(masks[b]) && cleans[b] == CleanLength(masks[b], lengths[b])
    ensures fresh(responses) && responses.Length == |masks|
    ensures forall b :: 0 <= b < |masks| ==> responses[b] == ResponseLength(masks[b], lengths[b])
  {
    responses := new int[|masks|](_ => 0);
    for b := 0 to |masks|
      invariant forall x :: 0 <= x < b ==> responses[x] == ResponseLength(masks[x], lengths[x])
      invariant forall x :: b <= x < |masks| ==> responses[x] == 0
    {
      if |Positions(masks[b])| > 0 {
        responses[b] := cleans[b] as int - starts[b] as int;
      }
    }
  }
}
