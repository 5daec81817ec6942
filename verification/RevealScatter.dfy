/** From scored views back to one value per original token: `scatter_block_reveal_logprobs`
    (nemo_rl/algorithms/block_just_grpo_logprobs.py, lines 475-516), the workers' sum over levels,
    and `_scatter_original_response_values` in the other direction. */
module RevealScatter {
  import opened CompletionLayout

  /** One scored row: its sample, where that sample's completion starts, and the noisy segment's log
      probabilities and harvest mask. */
  datatype Scored = Scored(sample: int, start: int, logprobs: seq<real>, harvest: seq<real>)

  /** What a row adds to position p of sample i. */
  function Contribution(r: Scored, offset: int, i: int, p: int): real
    requires |r.logprobs| <= |r.harvest|
  {
    var c := p - r.start + offset;
    if r.sample == i && 0 <= c < |r.logprobs| && r.harvest[c] > 0.5 then r.logprobs[c] * r.harvest[c] else 0.0
  }

  function Cell(rows: seq<Scored>, offset: int, i: int, p: int): real
    requires forall k :: 0 <= k < |rows| ==> |rows[k].logprobs| <= |rows[k].harvest|
  {
    if rows == [] then 0.0
    else Cell(rows[..|rows| - 1], offset, i, p) + Contribution(rows[|rows| - 1], offset, i, p)
  }

  /** Rows are added one after the other; indices outside the output are skipped. */
  method ScatterBlockReveal(rows: seq<Scored>, offset: int, seqLen: nat, samples: nat) returns (output: array2<real>)
    requires forall k :: 0 <= k < |rows| ==> |rows[k].logprobs| <= |rows[k].harvest|
    ensures fresh(output) && output.Length0 == samples && output.Length1 == seqLen
    ensures forall i, p :: 0 <= i < samples && 0 <= p < seqLen ==> output[i, p] == Cell(rows, offset, i, p)
  {
    output := new real[samples, seqLen]((_, _) => 0.0);
    for k := 0 to |rows|
      invariant forall i, p :: 0 <= i < samples && 0 <= p < seqLen ==> output[i, p] == Cell(rows[..k], offset, i, p)
    {
      var r := rows[k];
      assert rows[..k + 1][..k] == rows[..k];
      if !exists c :: 0 <= c < |r.logprobs| && r.harvest[c] > 0.5 {
        continue;
      }
      if r.sample < 0 || r.sample >= samples {
        continue;
      }
      forall p | 0 <= p < seqLen && 0 <= p - r.start + offset < |r.logprobs| && r.harvest[p - r.start + offset] > 0.5 {
        output[r.sample, p] := output[r.sample, p] + r.logprobs[p - r.start + offset] * r.harvest[p - r.start + offset];
      }
    }
    assert rows[..|rows|] == rows;
  }

  function Total(levels: seq<seq<Scored>>, offset: int, i: int, p: int): real
    requires forall l, k :: 0 <= l < |levels| && 0 <= k < |levels[l]| ==>
              |levels[l][k].logprobs| <= |levels[l][k].harvest|
  {
    if levels == [] then 0.0
    else Total(levels[..|levels| - 1], offset, i, p) + Cell(levels[|levels| - 1], offset, i, p)
  }

  /** The workers' loop: one forward and one scatter per level, added up. */
  method Accumulate(levels: seq<seq<Scored>>, offset: int, seqLen: nat, samples: nat) returns (sum: array2<real>)
    requires forall l, k :: 0 <= l < |levels| && 0 <= k < |levels[l]| ==>
              |levels[l][k].logprobs| <= |levels[l][k].harvest|
    ensures sum.Length0 == samples && sum.Length1 == seqLen
    ensures forall i, p :: 0 <= i < samples && 0 <= p < seqLen ==> sum[i, p] == Total(levels, offset, i, p)
  {
    sum := new real[samples, seqLen]((_, _) => 0.0);
    for l := 0 to |levels|
      invariant fresh(sum)
      invariant forall i, p :: 0 <= i < samples && 0 <= p < seqLen ==> sum[i, p] == Total(levels[..l], offset, i, p)
    {
      assert levels[..l + 1][..l] == levels[..l];
      var one := ScatterBlockReveal(levels[l], offset, seqLen, samples);
      forall i, p | 0 <= i < samples && 0 <= p < seqLen {
        sum[i, p] := sum[i, p] + one[i, p];
      }
    }
    assert levels[..|levels|] == levels;
  }

  // ---------------------------------------------------------------- views and the network

  /** One row of a level view: what the network sees, and which columns it is scored at. */
  datatype LevelView = LevelView(ids: seq<int>, harvest: seq<bool>)

  /** The network: the log probability of the target at column c, for sample i shown these ids. */
  type Scorer = (nat, seq<int>, int) -> real

  function Score(score: Scorer, noisy: nat, i: nat, start: nat, v: LevelView): Scored
  {
    Scored(i, start, seq(noisy, c => score(i, v.ids, c)),
      seq(|v.harvest|, c requires 0 <= c < |v.harvest| => if v.harvest[c] then 1.0 else 0.0))
  }

  function ScoreLevel(score: Scorer, noisy: nat, starts: seq<nat>, views: seq<LevelView>): seq<Scored>
    requires |starts| == |views|
  {
    seq(|views|, i requires 0 <= i < |views| => Score(score, noisy, i, starts[i], views[i]))
  }

  function ScoreLevels(score: Scorer, noisy: nat, starts: seq<nat>, levels: seq<seq<LevelView>>): seq<seq<Scored>>
    requires forall l :: 0 <= l < |levels| ==> |starts| == |levels[l]|
  {
    seq(|levels|, l requires 0 <= l < |levels| => ScoreLevel(score, noisy, starts, levels[l]))
  }

  ghost predicate WellFormed(noisy: nat, starts: seq<nat>, levels: seq<seq<LevelView>>)
  {
    forall l :: 0 <= l < |levels| ==>
      |levels[l]| == |starts| && forall i :: 0 <= i < |levels[l]| ==> noisy <= |levels[l][i].harvest|
  }

  /** In one level only row i reaches sample i. */
  lemma {:induction false} OnlyOwnRow(rows: seq<Scored>, offset: int, i: nat, p: int)
    requires forall k :: 0 <= k < |rows| ==> |rows[k].logprobs| <= |rows[k].harvest| && rows[k].sample == k
    ensures Cell(rows, offset, i, p) == if i < |rows| then Contribution(rows[i], offset, i, p) else 0.0
  {
    if rows != [] {
      OnlyOwnRow(rows[..|rows| - 1], offset, i, p);
    }
  }

  lemma LevelCell(score: Scorer, noisy: nat, starts: seq<nat>, views: seq<LevelView>, offset: int, i: nat, p: int)
    requires |starts| == |views| && forall k :: 0 <= k < |views| ==> noisy <= |views[k].harvest|
    requires i < |views|
    ensures var c := p - starts[i] + offset;
            Cell(ScoreLevel(score, noisy, starts, views), offset, i, p)
            == if 0 <= c < noisy && views[i].harvest[c] then score(i, views[i].ids, c) else 0.0
  {
    OnlyOwnRow(ScoreLevel(score, noisy, starts, views), offset, i, p);
  }

  /** If one level alone harvests the column of a position, the sum over all levels is the score the
      network gave in that level, for any network. */
  lemma {:induction false} OneHarvestReconstructs(score: Scorer, noisy: nat, starts: seq<nat>,
      levels: seq<seq<LevelView>>, offset: int, i: nat, p: int, owner: nat)
    requires WellFormed(noisy, starts, levels) && i < |starts|
    requires 0 <= p - starts[i] + offset < noisy
    requires forall l :: 0 <= l < |levels| ==> (levels[l][i].harvest[p - starts[i] + offset] <==> l == owner)
    ensures Total(ScoreLevels(score, noisy, starts, levels), offset, i, p)
         == if owner < |levels| then score(i, levels[owner][i].ids, p - starts[i] + offset) else 0.0
    decreases |levels|
  {
    if levels != [] {
      var last := |levels| - 1;
      var all, rest := ScoreLevels(score, noisy, starts, levels), levels[..last];
      assert all[..last] == ScoreLevels(score, noisy, starts, rest);
      OneHarvestReconstructs(score, noisy, starts, rest, offset, i, p, owner);
      LevelCell(score, noisy, starts, levels[last], offset, i, p);
    }
  }

  /** Positions no level harvests stay 0. */
  lemma {:induction false} NoHarvestIsZero(score: Scorer, noisy: nat, starts: seq<nat>, levels: seq<seq<LevelView>>,
      offset: int, i: nat, p: int)
    requires WellFormed(noisy, starts, levels) && i < |starts|
    requires var c := p - starts[i] + offset;
             0 <= c < noisy ==> forall l :: 0 <= l < |levels| ==> !levels[l][i].harvest[c]
    ensures Total(ScoreLevels(score, noisy, starts, levels), offset, i, p) == 0.0
    decreases |levels|
  {
    if levels != [] {
      var last := |levels| - 1;
      var all, rest := ScoreLevels(score, noisy, starts, levels), levels[..last];
      assert all[..last] == ScoreLevels(score, noisy, starts, rest);
      NoHarvestIsZero(score, noisy, starts, rest, offset, i, p);
      LevelCell(score, noisy, starts, levels[last], offset, i, p);
    }
  }

  // ---------------------------------------------------------------- original values into the layout, and back

  /** Per-token values of the original layout, moved to the columns of the noisy segment. */
  method ScatterOriginal(values: seq<seq<real>>, total: nat, rows: seq<Row>) returns (out: array2<real>)
    requires |values| == |rows|
    requires forall b :: 0 <= b < |rows| ==>
              rows[b].start + rows[b].response <= |values[b]| && rows[b].response <= total
    ensures out.Length0 == |rows| && out.Length1 == total
    ensures forall b, c :: 0 <= b < |rows| && 0 <= c < total ==> out[b, c] == GatheredAt(values[b], rows[b], c)
  {
    out := new real[|rows|, total]((_, _) => 0.0);
    for b := 0 to |rows|
      invariant forall x, c :: 0 <= x < b && 0 <= c < total ==> out[x, c] == GatheredAt(values[x], rows[x], c)
      invariant forall x, c :: b <= x < |rows| && 0 <= c < total ==> out[x, c] == 0.0
    {
      var r := rows[b];
      if r.response > 0 {
        forall c | 0 <= c < r.response {
          out[b, c] := values[b][r.start + c];
        }
      }
    }
  }

  function GatheredAt(values: seq<real>, r: Row, c: nat): real
    requires r.start + r.response <= |values|
  {
    if c < r.response then values[r.start + c] else 0.0
  }

  /** A sample's gathered values, harvested at every response column. */
  function Gathered(values: seq<real>, r: Row, i: nat, noisy: nat): Scored
    requires r.start + r.response <= |values|
  {
    Scored(i, r.start, seq(noisy, c requires 0 <= c => GatheredAt(values, r, c)),
      seq(noisy, c requires 0 <= c => ScoreAt(r, c)))
  }

  lemma RowRoundTrip(values: seq<real>, r: Row, i: nat, noisy: nat, p: nat)
    requires r.start + r.response <= |values| && r.response <= noisy && p < |values|
    ensures Contribution(Gathered(values, r, i, noisy), 0, i, p)
         == if r.start <= p < r.start + r.response then values[p] else 0.0
  {
    var g := Gathered(values, r, i, noisy);
    if r.start <= p < r.start + r.response {
      assert g.logprobs[p - r.start] == values[p] && g.harvest[p - r.start] == 1.0;
    }
  }

  function GatheredBatch(values: seq<seq<real>>, rows: seq<Row>, noisy: nat): seq<Scored>
    requires |values| == |rows|
    requires forall b :: 0 <= b < |rows| ==> rows[b].start + rows[b].response <= |values[b]|
  {
    seq(|rows|, i requires 0 <= i < |rows| => Gathered(values[i], rows[i], i, noisy))
  }

  /** Moving a batch of values into the noisy segment and scattering them back is the identity on
      each sample's completion and 0 everywhere else. */
  lemma GatherScatterRoundTrip(values: seq<seq<real>>, rows: seq<Row>, noisy: nat, i: nat, p: nat)
    requires |values| == |rows| && i < |rows| && p < |values[i]|
    requires forall b :: 0 <= b < |rows| ==>
              rows[b].start + rows[b].response <= |values[b]| && rows[b].response <= noisy
    ensures Cell(GatheredBatch(values, rows, noisy), 0, i, p)
         == if rows[i].start <= p < rows[i].start + rows[i].response then values[i][p] else 0.0
  {
    OnlyOwnRow(GatheredBatch(values, rows, noisy), 0, i, p);
    RowRoundTrip(values[i], rows[i], i, noisy, p);
  }
}
