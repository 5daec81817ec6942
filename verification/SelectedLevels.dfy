/** The entropy-sparsified reveal: each block keeps m of its offsets, one per rank
    (nemo_rl/algorithms/block_just_grpo_logprobs.py, lines 334-353 and 372-412). */
module SelectedLevels {
  import opened RevealScatter
  import opened RevealLevels

  /** Kept offsets of one sample: a list of m per block, -1 for none. */
  type Selection = seq<seq<int>>

  predicate Ranked(sel: Selection, m: nat)
  {
    sel != [] && forall x :: 0 <= x < |sel| ==> |sel[x]| == m
  }

  function BlockOf(c: int, offset: int, block: nat, blocks: nat): (x: nat)
    requires block > 0 && blocks > 0
    ensures x < blocks
  {
    var x := AtLeastZero(c - offset) / block;
    if x < blocks then x else blocks - 1
  }

  function Kept(sel: Selection, m: nat, offset: int, block: nat, j: nat, c: int): int
    requires block > 0 && Ranked(sel, m) && j < m
  {
    sel[BlockOf(c, offset, block, |sel|)][j]
  }

  predicate HarvestsRank(b: Base, sel: Selection, m: nat, offset: int, block: nat, j: nat, c: nat)
    requires block > 0 && Ranked(sel, m) && j < m && c < |b.score|
  {
    InResponse(b, offset, c) && Within(c, offset, block) == Kept(sel, m, offset, block, j, c) && b.score[c] > 0.5
  }

  /** `make_reveal_level_view` with a selection: every block shows what precedes its own j-th offset. */
  function RankView(b: Base, sel: Selection, m: nat, offset: int, block: nat, j: nat): LevelView
    requires block > 0 && Shaped(b) && Ranked(sel, m) && j < m
  {
    LevelView(
      seq(|b.ids|, c requires 0 <= c < |b.ids| =>
        if InResponse(b, offset, c) && Within(c, offset, block) < Kept(sel, m, offset, block, j, c)
        then b.targets[c] else b.ids[c]),
      seq(|b.ids|, c requires 0 <= c < |b.ids| => HarvestsRank(b, sel, m, offset, block, j, c)))
  }

  /** Where a block keeps offset o at rank j, the sparse view shows and harvests in that block exactly
      what the full view shows and harvests at level o; where it keeps none, nothing. */
  lemma RankViewIsFullView(b: Base, sel: Selection, m: nat, offset: int, block: nat, j: nat, c: nat)
    requires block > 0 && Shaped(b) && Ranked(sel, m) && j < m && c < |b.ids|
    requires Kept(sel, m, offset, block, j, c) >= -1
    ensures var o, v := Kept(sel, m, offset, block, j, c), RankView(b, sel, m, offset, block, j);
            && (o >= 0 ==> v.ids[c] == FullView(b, offset, block, 1, o).ids[c]
                           && v.harvest[c] == FullView(b, offset, block, 1, o).harvest[c])
            && (o == -1 ==> v.ids[c] == b.ids[c] && !v.harvest[c])
  {
    var o := Kept(sel, m, offset, block, j, c);
    if o >= 0 {
      assert Reveals(b, offset, block, 1, o, c) <==> InResponse(b, offset, c) && Within(c, offset, block) < o;
      assert Harvests(b, offset, block, 1, o, c) <==> HarvestsRank(b, sel, m, offset, block, j, c);
    }
  }

  // ---------------------------------------------------------------- kept tokens

  /** No block lists an offset twice. */
  ghost predicate Distinct(sel: Selection, m: nat)
    requires Ranked(sel, m)
  {
    forall x, j, l :: 0 <= x < |sel| && 0 <= j < l < m && sel[x][j] >= 0 ==> sel[x][j] != sel[x][l]
  }

  function RanksHarvesting(b: Base, sel: Selection, m: nat, offset: int, block: nat, c: nat, upTo: nat): nat
    requires block > 0 && Ranked(sel, m) && upTo <= m && c < |b.score|
  {
    if upTo == 0 then 0
    else
      var before := RanksHarvesting(b, sel, m, offset, block, c, upTo - 1);
      if HarvestsRank(b, sel, m, offset, block, upTo - 1, c) then before + 1 else before
  }

  ghost predicate KeptToken(b: Base, sel: Selection, m: nat, offset: int, block: nat, c: nat)
    requires block > 0 && Ranked(sel, m) && c < |b.score|
  {
    exists j :: 0 <= j < m && HarvestsRank(b, sel, m, offset, block, j, c)
  }

  lemma {:induction false} AtMostOneRank(b: Base, sel: Selection, m: nat, offset: int, block: nat, c: nat, upTo: nat)
    requires block > 0 && Ranked(sel, m) && Distinct(sel, m) && upTo <= m && c < |b.score|
    ensures RanksHarvesting(b, sel, m, offset, block, c, upTo)
         == if exists j :: 0 <= j < upTo && HarvestsRank(b, sel, m, offset, block, j, c) then 1 else 0
  {
    if upTo > 0 {
      AtMostOneRank(b, sel, m, offset, block, c, upTo - 1);
      if j :| 0 <= j < upTo - 1 && HarvestsRank(b, sel, m, offset, block, j, c) {
        assert sel[BlockOf(c, offset, block, |sel|)][j] != sel[BlockOf(c, offset, block, |sel|)][upTo - 1];
      }
    }
  }

  /** The union of the per-rank harvests is their sum: a kept token is harvested at one rank. */
  lemma UnionIsSum(b: Base, sel: Selection, m: nat, offset: int, block: nat, c: nat)
    requires block > 0 && Ranked(sel, m) && Distinct(sel, m) && c < |b.score|
    ensures RanksHarvesting(b, sel, m, offset, block, c, m) == if KeptToken(b, sel, m, offset, block, c) then 1 else 0
  {
    AtMostOneRank(b, sel, m, offset, block, c, m);
  }

  ghost predicate Listed(sel: Selection, m: nat, offset: int, block: nat, c: int, upTo: nat)
    requires block > 0 && Ranked(sel, m) && upTo <= m
  {
    exists j :: 0 <= j < upTo && Within(c, offset, block) == Kept(sel, m, offset, block, j, c)
  }

  lemma ListedOneMore(sel: Selection, m: nat, offset: int, block: nat, c: int, j: nat)
    requires block > 0 && Ranked(sel, m) && j < m
    ensures Listed(sel, m, offset, block, c, j + 1)
       <==> Listed(sel, m, offset, block, c, j) || Within(c, offset, block) == Kept(sel, m, offset, block, j, c)
  {
  }

  /** Column c holds a scored response token whose offset its block lists; columns past the last listed block look
      there. */
  ghost predicate ListedToken(b: Base, sel: Selection, m: nat, offset: int, block: nat, c: nat)
    requires block > 0 && Ranked(sel, m) && c < |b.score|
  {
    0 <= c - offset < b.response && b.score[c] > 0.5 &&
    (c - offset) % block in (if (c - offset) / block < |sel| then sel[(c - offset) / block] else sel[|sel| - 1])
  }

  lemma KeptIsListed(b: Base, sel: Selection, m: nat, offset: int, block: nat, c: nat)
    requires block > 0 && Ranked(sel, m) && c < |b.score|
    ensures KeptToken(b, sel, m, offset, block, c) <==> ListedToken(b, sel, m, offset, block, c)
  {
    KeptWhenListed(b, sel, m, offset, block, c);
    if 0 <= c - offset {
      var row := sel[BlockOf(c, offset, block, |sel|)];
      assert Within(c, offset, block) == (c - offset) % block;
      if (c - offset) % block in row {
        var j :| 0 <= j < |row| && row[j] == (c - offset) % block;
        assert Kept(sel, m, offset, block, j, c) == row[j];
      }
      if Listed(sel, m, offset, block, c, m) {
        var j :| 0 <= j < m && Within(c, offset, block) == Kept(sel, m, offset, block, j, c);
        assert row[j] == (c - offset) % block;
      }
    }
  }

  lemma KeptWhenListed(b: Base, sel: Selection, m: nat, offset: int, block: nat, c: nat)
    requires block > 0 && Ranked(sel, m) && c < |b.score|
    ensures KeptToken(b, sel, m, offset, block, c)
       <==> InResponse(b, offset, c) && Listed(sel, m, offset, block, c, m) && b.score[c] > 0.5
  {
    if Listed(sel, m, offset, block, c, m) && InResponse(b, offset, c) && b.score[c] > 0.5 {
      var j :| 0 <= j < m && Within(c, offset, block) == Kept(sel, m, offset, block, j, c);
      assert HarvestsRank(b, sel, m, offset, block, j, c);
    }
  }

  /** `build_block_kept_mask`: the ranks are or-ed together, then restricted to scored response tokens. */
  method BuildKeptMask(bases: seq<Base>, selected: seq<Selection>, m: nat, offset: int, block: nat, total: nat)
    returns (kept: array2<bool>)
    requires block > 0 && |selected| == |bases|
    requires forall i :: 0 <= i < |bases| ==> |bases[i].score| == total && Ranked(selected[i], m)
    ensures kept.Length0 == |bases| && kept.Length1 == total
    ensures forall i, c :: 0 <= i < |bases| && 0 <= c < total ==>
              (kept[i, c] <==> KeptToken(bases[i], selected[i], m, offset, block, c))
    ensures forall i, c :: 0 <= i < |bases| && 0 <= c < total ==>
              (kept[i, c] <==> ListedToken(bases[i], selected[i], m, offset, block, c))
  {
    kept := new bool[|bases|, total]((_, _) => false);
    for j := 0 to m
      invariant fresh(kept)
      invariant forall i, c :: 0 <= i < |bases| && 0 <= c < total ==>
                (kept[i, c] <==> Listed(selected[i], m, offset, block, c, j))
    {
      forall i, c | 0 <= i < |bases| && 0 <= c < total
        ensures Listed(selected[i], m, offset, block, c, j + 1)
           <==> Listed(selected[i], m, offset, block, c, j)
                || Within(c, offset, block) == Kept(selected[i], m, offset, block, j, c)
      {
        ListedOneMore(selected[i], m, offset, block, c, j);
      }
      forall i, c | 0 <= i < |bases| && 0 <= c < total {
        kept[i, c] := kept[i, c] || Within(c, offset, block) == Kept(selected[i], m, offset, block, j, c);
      }
    }
    forall i, c | 0 <= i < |bases| && 0 <= c < total
      ensures KeptToken(bases[i], selected[i], m, offset, block, c)
         <==> InResponse(bases[i], offset, c) && Listed(selected[i], m, offset, block, c, m) && bases[i].score[c] > 0.5
    {
      KeptWhenListed(bases[i], selected[i], m, offset, block, c);
    }
    forall i, c | 0 <= i < |bases| && 0 <= c < total {
      kept[i, c] := InResponse(bases[i], offset, c) && kept[i, c] && bases[i].score[c] > 0.5;
    }
    forall i, c | 0 <= i < |bases| && 0 <= c < total
      ensures kept[i, c] <==> ListedToken(bases[i], selected[i], m, offset, block, c)
    {
      KeptIsListed(bases[i], selected[i], m, offset, block, c);
    }
  }

  // ---------------------------------------------------------------- reconstruction

  function RankViews(bases: seq<Base>, selected: seq<Selection>, m: nat, offset: int, block: nat): seq<seq<LevelView>>
    requires block > 0 && |selected| == |bases|
    requires forall i :: 0 <= i < |bases| ==> Shaped(bases[i]) && Ranked(selected[i], m)
  {
    seq(m, j requires 0 <= j < m => seq(|bases|, i requires 0 <= i < |bases| =>
      RankView(bases[i], selected[i], m, offset, block, j)))
  }

  /** Summed over the ranks, each kept token has the score of the rank that keeps it and every other
      position is 0. */
  lemma SparseRevealReconstructs(score: Scorer, noisy: nat, starts: seq<nat>, bases: seq<Base>,
      selected: seq<Selection>, m: nat, offset: int, block: nat, i: nat, p: int)
    requires block > 0 && |starts| == |bases| == |selected| && i < |bases|
    requires forall b :: 0 <= b < |bases| ==> Shaped(bases[b]) && noisy <= |bases[b].ids| && Ranked(selected[b], m)
    requires Distinct(selected[i], m)
    ensures var c := p - starts[i] + offset;
            var views := RankViews(bases, selected, m, offset, block);
            var sum := Total(ScoreLevels(score, noisy, starts, views), offset, i, p);
            && (forall j ::
                  0 <= j < m && 0 <= c < noisy && HarvestsRank(bases[i], selected[i], m, offset, block, j, c) ==>
                  sum == score(i, RankView(bases[i], selected[i], m, offset, block, j).ids, c))
            && (!(0 <= c < noisy && KeptToken(bases[i], selected[i], m, offset, block, c)) ==> sum == 0.0)
  {
    var views := RankViews(bases, selected, m, offset, block);
    var c := p - starts[i] + offset;
    if j :| 0 <= j < m && 0 <= c < noisy && HarvestsRank(bases[i], selected[i], m, offset, block, j, c) {
      forall l | 0 <= l < m
        ensures HarvestsRank(bases[i], selected[i], m, offset, block, l, c) <==> l == j
      {
        var x := BlockOf(c, offset, block, |selected[i]|);
        assert l < j ==> selected[i][x][l] >= 0 ==> selected[i][x][l] != selected[i][x][j];
      }
      OneHarvestReconstructs(score, noisy, starts, views, offset, i, p, j);
    } else {
      NoHarvestIsZero(score, noisy, starts, views, offset, i, p);
    }
  }

  // ---------------------------------------------------------------- sparse against full

  /** The two inputs agree in the block of column c and from the end of the noisy segment on. */
  ghost predicate AgreeAround(x: seq<int>, y: seq<int>, offset: int, block: nat, noisy: nat, c: int)
    requires block > 0
  {
    |x| == |y| && forall u: nat ::
      u < |x| && (u >= noisy || AtLeastZero(u - offset) / block == AtLeastZero(c - offset) / block) ==> x[u] == y[u]
  }

  /** The block-causal attention: a noisy column is scored from its own block and the clean segment. */
  ghost predicate BlockLocal(score: Scorer, offset: int, block: nat, noisy: nat)
    requires block > 0
  {
    forall i, x, y, c :: AgreeAround(x, y, offset, block, noisy, c) ==> score(i, x, c) == score(i, y, c)
  }

  /** Around a token that rank j harvests, the sparse view is the full view of the token's own level. */
  lemma SameConditioning(b: Base, sel: Selection, m: nat, offset: int, block: nat, noisy: nat, j: nat, c: nat)
    requires block > 0 && Shaped(b) && Ranked(sel, m) && j < m && c < |b.ids|
    requires HarvestsRank(b, sel, m, offset, block, j, c) && offset + b.response <= noisy
    ensures AgreeAround(RankView(b, sel, m, offset, block, j).ids,
              FullView(b, offset, block, 1, Within(c, offset, block)).ids, offset, block, noisy, c)
  {
    var o := Within(c, offset, block);
    forall u: nat | u < |b.ids| && (u >= noisy || AtLeastZero(u - offset) / block == AtLeastZero(c - offset) / block)
      ensures RankView(b, sel, m, offset, block, j).ids[u] == FullView(b, offset, block, 1, o).ids[u]
    {
      if u < noisy {
        assert BlockOf(u, offset, block, |sel|) == BlockOf(c, offset, block, |sel|);
        RankViewIsFullView(b, sel, m, offset, block, j, u);
      }
    }
  }

  /** A batch with its selections, laid out for a noisy segment. */
  ghost predicate Prepared(noisy: nat, starts: seq<nat>, bases: seq<Base>, selected: seq<Selection>, m: nat)
  {
    |starts| == |bases| == |selected| && forall b :: 0 <= b < |bases| ==>
      Shaped(bases[b]) && noisy <= |bases[b].ids| && Ranked(selected[b], m)
  }

  lemma KeptSparseValue(score: Scorer, noisy: nat, starts: seq<nat>, bases: seq<Base>, selected: seq<Selection>, m: nat,
      offset: int, block: nat, i: nat, c: nat, p: int, j: nat)
    requires block > 0 && Prepared(noisy, starts, bases, selected, m) && i < |bases| && c < noisy &&
              p == starts[i] + c - offset
    requires Distinct(selected[i], m) && j < m && HarvestsRank(bases[i], selected[i], m, offset, block, j, c)
    ensures Total(ScoreLevels(score, noisy, starts, RankViews(bases, selected, m, offset, block)), offset, i, p)
         == score(i, RankView(bases[i], selected[i], m, offset, block, j).ids, c)
  {
    SparseRevealReconstructs(score, noisy, starts, bases, selected, m, offset, block, i, p);
  }

  lemma DroppedSparseValue(score: Scorer, noisy: nat, starts: seq<nat>, bases: seq<Base>, selected: seq<Selection>,
      m: nat, offset: int, block: nat, i: nat, p: int)
    requires block > 0 && Prepared(noisy, starts, bases, selected, m) && i < |bases| && Distinct(selected[i], m)
    requires var c := p - starts[i] + offset;
             0 <= c < noisy ==> !KeptToken(bases[i], selected[i], m, offset, block, c)
    ensures Total(ScoreLevels(score, noisy, starts, RankViews(bases, selected, m, offset, block)), offset, i, p) == 0.0
  {
    SparseRevealReconstructs(score, noisy, starts, bases, selected, m, offset, block, i, p);
  }

  lemma ResponseFullValue(score: Scorer, noisy: nat, starts: seq<nat>, bases: seq<Base>, selected: seq<Selection>,
      m: nat, offset: int, block: nat, i: nat, c: nat, p: int)
    requires block > 0 && Prepared(noisy, starts, bases, selected, m) && i < |bases| && c < noisy &&
              p == starts[i] + c - offset
    requires offset >= 0 && offset + bases[i].response <= noisy && ScoredExactly(bases[i], offset, noisy) &&
              InResponse(bases[i], offset, c)
    ensures Total(ScoreLevels(score, noisy, starts, Views(bases, offset, block, 1, block)), offset, i, p)
         == score(i, FullView(bases[i], offset, block, 1, Within(c, offset, block)).ids, c)
  {
    BlockRevealReconstructs(score, noisy, starts, bases, offset, block, 1, block, i, p);
    assert LevelOf(Within(c, offset, block), 1) == Within(c, offset, block) < block;
  }

  /** For a network that scores a column from its own block and the clean segment, sparsification changes
      no kept token's value: summed over the ranks it is what the full reveal gives. */
  lemma SparseAgreesWithFull(score: Scorer, noisy: nat, starts: seq<nat>, bases: seq<Base>, selected: seq<Selection>,
      m: nat, offset: int, block: nat, i: nat, c: nat, p: int)
    requires block > 0 && Prepared(noisy, starts, bases, selected, m) && i < |bases| && c < noisy &&
              p == starts[i] + c - offset
    requires Distinct(selected[i], m) && BlockLocal(score, offset, block, noisy)
    requires offset >= 0 && offset + bases[i].response <= noisy && ScoredExactly(bases[i], offset, noisy)
    requires KeptToken(bases[i], selected[i], m, offset, block, c)
    ensures Total(ScoreLevels(score, noisy, starts, RankViews(bases, selected, m, offset, block)), offset, i, p)
         == Total(ScoreLevels(score, noisy, starts, Views(bases, offset, block, 1, block)), offset, i, p)
  {
    var j :| 0 <= j < m && HarvestsRank(bases[i], selected[i], m, offset, block, j, c);
    KeptSparseValue(score, noisy, starts, bases, selected, m, offset, block, i, c, p, j);
    ResponseFullValue(score, noisy, starts, bases, selected, m, offset, block, i, c, p);
    SameConditioning(bases[i], selected[i], m, offset, block, noisy, j, c);
    LocalScores(score, offset, block, noisy, i, RankView(bases[i], selected[i], m, offset, block, j).ids,
                FullView(bases[i], offset, block, 1, Within(c, offset, block)).ids, c);
  }

  lemma LocalScores(score: Scorer, offset: int, block: nat, noisy: nat, i: nat, x: seq<int>, y: seq<int>, c: int)
    requires block > 0 && BlockLocal(score, offset, block, noisy) && AgreeAround(x, y, offset, block, noisy, c)
    ensures score(i, x, c) == score(i, y, c)
  {
  }
}
