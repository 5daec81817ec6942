/** The entropy-sparsified reveal of a whole batch, from entropies to per-token values: the top offsets of
    every block, one level per rank, scored and summed (nemo_rl/algorithms/block_just_grpo_logprobs.py,
    lines 130-192, 289-369 and 475-516). */
module SparseReveal {
  import opened CompletionSpan
  import opened CompletionLayout
  import opened RevealScatter
  import opened RevealLevels
  import opened SelectedLevels
  import opened TopOffsets
  import opened RevealAgreement
  import Arithmetic

  /** How offsets are kept: m per block by `topk`, EOS tokens first when `boost` is set. */
  datatype Choice = Choice(m: nat, topk: TopK, boost: bool, eos: int)

  function RolloutOf(s: Sample, r: Row, entropy: seq<real>): Rollout
  {
    Rollout(entropy, s.tokens, r.start, r.response)
  }

  /** Every token of the batch has a non-negative entropy. */
  ghost predicate Measures(samples: seq<Sample>, rows: seq<Row>, entropies: seq<seq<real>>)
  {
    |samples| == |rows| == |entropies| && forall b :: 0 <= b < |rows| ==>
      Measured(RolloutOf(samples[b], rows[b], entropies[b]))
  }

  ghost predicate Chooses(choice: Choice, block: nat)
  {
    Selects(choice.topk) && choice.m <= block
  }

  function BlockCount(rows: seq<Row>, block: nat): (n: nat)
    requires block > 0
    ensures n > 0
  {
    Arithmetic.Blocks(Maximum(LengthsOf(rows)), block)
  }

  /** The kept offsets of sample b, block by block. */
  ghost function SelectionOf(samples: seq<Sample>, rows: seq<Row>, entropies: seq<seq<real>>, block: nat,
      choice: Choice, b: nat)
    : (sel: Selection)
    requires block > 0 && Measures(samples, rows, entropies) && Chooses(choice, block) && b < |rows|
    ensures |sel| == BlockCount(rows, block) && Ranked(sel, choice.m) && Distinct(sel, choice.m)
  {
    var s, n := RolloutOf(samples[b], rows[b], entropies[b]), BlockCount(rows, block);
    OffsetsShape(s, block, choice.m, n, choice.topk, choice.boost, choice.eos);
    TopOffsets.TopOffsets(s, block, choice.m, n, choice.topk, choice.boost, choice.eos)
  }

  ghost function Selected(samples: seq<Sample>, rows: seq<Row>, entropies: seq<seq<real>>, block: nat, choice: Choice)
    : (selected: seq<Selection>)
    requires block > 0 && Measures(samples, rows, entropies) && Chooses(choice, block)
    ensures |selected| == |rows| && forall b :: 0 <= b < |rows| ==>
              Ranked(selected[b], choice.m) && Distinct(selected[b], choice.m)
              && selected[b] == SelectionOf(samples, rows, entropies, block, choice, b)
  {
    seq(|rows|, b requires 0 <= b < |rows| => SelectionOf(samples, rows, entropies, block, choice, b))
  }

  /** The value at position p of sample i after scoring and summing all ranks. */
  ghost function SparseValue(samples: seq<Sample>, rows: seq<Row>, entropies: seq<seq<real>>, block: nat, round: nat,
      ids: Ids, choice: Choice, score: Scorer, i: nat, p: int): real
    requires block > 0 && Measures(samples, rows, entropies) && Chooses(choice, block)
    requires forall b :: 0 <= b < |rows| ==> Placed(rows[b])
  {
    var bases, noisy := BasesOf(rows, block, round, MaskTail, ids), ShapeOf(rows, block, round, MaskTail).noisy;
    forall b | 0 <= b < |rows| ensures noisy <= |bases[b].ids| { BaseFits(rows, block, round, MaskTail, ids, b); }
    var selected := Selected(samples, rows, entropies, block, choice);
    Total(ScoreLevels(score, noisy, StartsOf(rows), RankViews(bases, selected, choice.m, 0, block)), 0, i, p)
  }

  /** Response token c of sample i is kept: its offset is among the kept ones of its block. */
  ghost predicate IsKept(samples: seq<Sample>, rows: seq<Row>, entropies: seq<seq<real>>, block: nat, choice: Choice,
      i: nat, c: int)
    requires block > 0 && Measures(samples, rows, entropies) && Chooses(choice, block) && i < |rows|
  {
    0 <= c < rows[i].response && c / block < BlockCount(rows, block)
    && c % block in SelectionOf(samples, rows, entropies, block, choice, i)[c / block]
  }

  lemma OwnBlock(rows: seq<Row>, block: nat, i: nat, c: nat)
    requires block > 0 && i < |rows| && c < rows[i].response
    ensures c / block < BlockCount(rows, block) && BlockOf(c, 0, block, BlockCount(rows, block)) == c / block
  {
    assert LengthsOf(rows)[i] <= Maximum(LengthsOf(rows));
    BlocksSuffice(Maximum(LengthsOf(rows)), block, c, 0);
  }

  lemma KeptTokenIsKept(samples: seq<Sample>, rows: seq<Row>, entropies: seq<seq<real>>, block: nat, choice: Choice,
      b: Base, i: nat, c: nat)
    requires block > 0 && Measures(samples, rows, entropies) && Chooses(choice, block) && i < |rows|
    requires c < |b.score| && b.response == rows[i].response && (b.score[c] > 0.5 <==> InResponse(b, 0, c))
    ensures KeptToken(b, SelectionOf(samples, rows, entropies, block, choice, i), choice.m, 0, block, c)
       <==> IsKept(samples, rows, entropies, block, choice, i, c)
  {
    var sel := SelectionOf(samples, rows, entropies, block, choice, i);
    KeptWhenListed(b, sel, choice.m, 0, block, c);
    if c < rows[i].response {
      OwnBlock(rows, block, i, c);
      assert Within(c, 0, block) == c % block;
      forall j | 0 <= j < choice.m
        ensures Kept(sel, choice.m, 0, block, j, c) == sel[c / block][j]
      {
      }
    }
  }

  lemma BatchPrepared(rows: seq<Row>, block: nat, round: nat, ids: Ids, selected: seq<Selection>, m: nat)
    requires forall b :: 0 <= b < |rows| ==> Placed(rows[b])
    requires |selected| == |rows| && forall b :: 0 <= b < |rows| ==> Ranked(selected[b], m)
    ensures Prepared(ShapeOf(rows, block, round, MaskTail).noisy, StartsOf(rows),
              BasesOf(rows, block, round, MaskTail, ids), selected, m)
  {
    var bases, noisy := BasesOf(rows, block, round, MaskTail, ids), ShapeOf(rows, block, round, MaskTail).noisy;
    forall b | 0 <= b < |rows|
      ensures noisy <= |bases[b].ids|
    {
      BaseFits(rows, block, round, MaskTail, ids, b);
    }
  }

  /** With an arbitrary network, whatever is not kept gets zero. */
  lemma OthersAreZero(samples: seq<Sample>, rows: seq<Row>, entropies: seq<seq<real>>, block: nat, round: nat, ids: Ids,
      choice: Choice, score: Scorer, i: nat, p: int)
    requires block > 0 && Measures(samples, rows, entropies) && Chooses(choice, block) && i < |rows|
    requires forall b :: 0 <= b < |rows| ==> Placed(rows[b])
    requires !IsKept(samples, rows, entropies, block, choice, i, p - rows[i].start)
    ensures SparseValue(samples, rows, entropies, block, round, ids, choice, score, i, p) == 0.0
  {
    var bases, noisy := BasesOf(rows, block, round, MaskTail, ids), ShapeOf(rows, block, round, MaskTail).noisy;
    var selected := Selected(samples, rows, entropies, block, choice);
    var c := p - rows[i].start;
    BatchPrepared(rows, block, round, ids, selected, choice.m);
    BaseFits(rows, block, round, MaskTail, ids, i);
    if 0 <= c < noisy {
      KeptTokenIsKept(samples, rows, entropies, block, choice, bases[i], i, c);
    }
    DroppedSparseValue(score, noisy, StartsOf(rows), bases, selected, choice.m, 0, block, i, p);
  }

  /** With a network that scores a noisy column from its own block and the clean segment, a kept token gets
      its value in the full reveal at width one. */
  lemma KeptIsFull(samples: seq<Sample>, rows: seq<Row>, entropies: seq<seq<real>>, block: nat, round: nat, ids: Ids,
      choice: Choice, score: Scorer, i: nat, p: int)
    requires block > 0 && Measures(samples, rows, entropies) && Chooses(choice, block) && i < |rows|
    requires forall b :: 0 <= b < |rows| ==> Placed(rows[b])
    requires BlockLocal(score, 0, block, ShapeOf(rows, block, round, MaskTail).noisy)
    requires IsKept(samples, rows, entropies, block, choice, i, p - rows[i].start)
    ensures SparseValue(samples, rows, entropies, block, round, ids, choice, score, i, p)
         == BlockRevealValue(rows, block, round, ids, 1, score, i, p)
  {
    var bases, noisy := BasesOf(rows, block, round, MaskTail, ids), ShapeOf(rows, block, round, MaskTail).noisy;
    var selected := Selected(samples, rows, entropies, block, choice);
    var c := p - rows[i].start;
    BatchPrepared(rows, block, round, ids, selected, choice.m);
    BaseFits(rows, block, round, MaskTail, ids, i);
    KeptTokenIsKept(samples, rows, entropies, block, choice, bases[i], i, c);
    assert CountRevealLevels(block, LengthsOf(rows), 0, false, 1) == block;
    SparseAgreesWithFull(score, noisy, StartsOf(rows), bases, selected, choice.m, 0, block, i, c, p);
  }

  /** End to end, for any accepted batch, entropies, choice and block-local network: a generated token whose
      offset is among the kept ones of its block gets its own score, as in the full reveal, and every other
      token of the batch gets zero. */
  lemma SparseRevealExact(samples: seq<Sample>, rows: seq<Row>, entropies: seq<seq<real>>, block: nat, round: nat,
      ids: Ids, choice: Choice, score: Scorer, i: nat, p: nat)
    requires DerivedFrom(samples, rows) && block > 0 && i < |samples| && p < |samples[i].tokens|
    requires Measures(samples, rows, entropies) && Chooses(choice, block)
    requires BlockLocal(score, 0, block, ShapeOf(rows, block, round, MaskTail).noisy)
    ensures SparseValue(samples, rows, entropies, block, round, ids, choice, score, i, p)
         == if ScoreMask(samples[i])[p] && IsKept(samples, rows, entropies, block, choice, i, p - rows[i].start)
            then HarvestScore(rows, block, round, ids, 1, score, i, p - rows[i].start) else 0.0
  {
    InSpan(samples, rows, i, p);
    if IsKept(samples, rows, entropies, block, choice, i, p - rows[i].start) {
      KeptIsFull(samples, rows, entropies, block, round, ids, choice, score, i, p);
      BlockRevealExact(samples, rows, block, round, ids, 1, score, i, p);
    } else {
      OthersAreZero(samples, rows, entropies, block, round, ids, choice, score, i, p);
    }
  }

  /** What a kept token's score is: the network's, at the token's own column, when of every block it is shown the
      offsets before the token's. */
  lemma SparseRevealShows(samples: seq<Sample>, rows: seq<Row>, entropies: seq<seq<real>>, block: nat, round: nat,
      ids: Ids, choice: Choice, score: Scorer, i: nat, p: nat)
    requires DerivedFrom(samples, rows) && block > 0 && i < |samples| && p < |samples[i].tokens|
    requires Measures(samples, rows, entropies) && Chooses(choice, block)
    requires BlockLocal(score, 0, block, ShapeOf(rows, block, round, MaskTail).noisy)
    requires ScoreMask(samples[i])[p] && IsKept(samples, rows, entropies, block, choice, i, p - rows[i].start)
    ensures var c := p - rows[i].start;
            var value := SparseValue(samples, rows, entropies, block, round, ids, choice, score, i, p);
            0 <= c
            && ScoredShowing(samples, rows, block, round, MaskTail, ids, score, i, c, BeforeWindow(block, 1, c), value)
  {
    KeptIsFull(samples, rows, entropies, block, round, ids, choice, score, i, p);
    BlockRevealShows(samples, rows, block, round, ids, 1, score, i, p,
      BlockRevealValue(rows, block, round, ids, 1, score, i, p));
  }

  /** Which tokens are kept, in the sample's own terms: of two generated tokens at offsets o and d of block x, a kept
      one is never less entropic than a dropped one, EOS tokens counting as most entropic when they are boosted. */
  lemma KeptTokensAreTop(samples: seq<Sample>, rows: seq<Row>, entropies: seq<seq<real>>, block: nat, choice: Choice,
      i: nat, x: nat, o: nat, d: nat)
    requires block > 0 && Measures(samples, rows, entropies) && Chooses(choice, block) && i < |rows|
    requires x < BlockCount(rows, block) && o < block && d < block
    requires x * block + o < rows[i].response && x * block + d < rows[i].response
    requires var kept := SelectionOf(samples, rows, entropies, block, choice, i)[x]; o in kept && d !in kept
    ensures rows[i].start + rows[i].response <= |samples[i].tokens| == |entropies[i]|
    ensures var tokens, first := samples[i].tokens, rows[i].start + x * block;
            (choice.boost && tokens[first + o] == choice.eos)
            || (!(choice.boost && tokens[first + d] == choice.eos)
                && entropies[i][first + o] >= entropies[i][first + d])
  {
    var s := RolloutOf(samples[i], rows[i], entropies[i]);
    KeptDoNotGiveWay(s, block, choice.m, BlockCount(rows, block), choice.topk, choice.boost, choice.eos, x, o, d);
  }

  /** How many are kept: every block of a response keeps as many tokens as it has, but at most m. */
  lemma BlockKeeps(samples: seq<Sample>, rows: seq<Row>, entropies: seq<seq<real>>, block: nat, choice: Choice,
      i: nat, x: nat)
    requires block > 0 && Measures(samples, rows, entropies) && Chooses(choice, block) && i < |rows|
    requires x < BlockCount(rows, block)
    ensures var r := SelectionOf(samples, rows, entropies, block, choice, i)[x];
            var left := rows[i].response - x * block;
            && |r| == choice.m
            && (forall a :: 0 <= a < choice.m && a < left ==> 0 <= r[a] < block && r[a] < left)
            && (forall a :: 0 <= a < choice.m && a >= left ==> r[a] == -1)
            && (forall a, b :: 0 <= a < b < choice.m && b < left ==> r[a] < r[b])
  {
    var s := RolloutOf(samples[i], rows[i], entropies[i]);
    OffsetsShape(s, block, choice.m, BlockCount(rows, block), choice.topk, choice.boost, choice.eos);
    assert ShapeOfBlock(SelectionOf(samples, rows, entropies, block, choice, i)[x], choice.m, ValidIn(s, block, x));
  }
}
