/** Block reveal levels: which tokens of a block a level shows and which it harvests
    (nemo_rl/algorithms/block_just_grpo_logprobs.py, lines 79-105 and 289-412). */
module RevealLevels {
  import opened Arithmetic
  import opened RevealScatter

  /** The noisy side of a base row: masked ids, targets, score mask, true response length. */
  datatype Base = Base(ids: seq<int>, targets: seq<int>, score: seq<real>, response: nat)

  predicate Shaped(b: Base)
  {
    |b.targets| == |b.ids| == |b.score|
  }

  /** In the noisy segment the score mask marks the response and nothing else. */
  ghost predicate ScoredExactly(b: Base, offset: int, noisy: nat)
  {
    noisy <= |b.score| && forall c :: 0 <= c < noisy ==> (b.score[c] > 0.5 <==> InResponse(b, offset, c))
  }

  function AtLeastZero(x: int): nat
  {
    if x < 0 then 0 else x
  }

  function Within(c: int, offset: int, block: nat): nat
    requires block > 0
  {
    AtLeastZero(c - offset) % block
  }

  predicate InResponse(b: Base, offset: int, c: int)
  {
    0 <= c - offset < b.response
  }

  // ---------------------------------------------------------------- number of levels

  function Width(k: int): (w: nat)
    ensures w > 0
  {
    if k > 1 then k else 1
  }

  /** `lengths` only matters for being empty; `cap` is `max_reveal_levels`. */
  function CountRevealLevels(block: nat, lengths: seq<nat>, cap: int, capped: bool, k: int): int
  {
    if lengths == [] then 0
    else
      var levels := (block + Width(k) - 1) / Width(k);
      if capped && cap < levels then cap else levels
  }

  /** The harvest level of the token at offset w of its block. */
  function LevelOf(w: nat, k: int): nat
  {
    w / Width(k)
  }

  lemma LevelIs(w: nat, k: int, level: nat)
    ensures level == LevelOf(w, k) <==> level * Width(k) <= w < level * Width(k) + Width(k)
  {
    var n := Width(k);
    assert w / n * n <= w < w / n * n + n;
    if level * n <= w < level * n + n {
      Quotient(w, n, level);
    }
  }

  /** Uncapped, the level count is the least one that reaches every offset of a block, whatever the
      response lengths of a non-empty batch. */
  lemma LevelsReachBlock(block: nat, lengths: seq<nat>, k: int, count: nat)
    requires lengths != [] && block > 0
    ensures CountRevealLevels(block, lengths, 0, false, k) <= count
       <==> forall w: nat :: w < block ==> LevelOf(w, k) < count
    ensures forall w: nat :: w < block ==> LevelOf(w, k) == w / PerLevel(k)
  {
    var n, levels := Width(k), CountRevealLevels(block, lengths, 0, false, k);
    assert levels * n <= block + n - 1 < levels * n + n;
    forall w: nat | w < block && levels <= count
      ensures LevelOf(w, k) < count
    {
      assert w / n * n <= w < levels * n;
      MulLess(w / n, levels, n);
    }
    if forall w: nat :: w < block ==> LevelOf(w, k) < count {
      assert LevelOf(block - 1, k) < count;
      assert block - 1 < LevelOf(block - 1, k) * n + n;
      MulMono(LevelOf(block - 1, k) + 1, count, n);
      assert (LevelOf(block - 1, k) + 1) * n == LevelOf(block - 1, k) * n + n;
      assert (count + 1) * n == count * n + n;
      MulLess(levels, count + 1, n);
    }
  }

  /** With a cap, exactly the offsets whose level lies below the cap are reached; an empty batch has no levels. */
  lemma CapReaches(block: nat, lengths: seq<nat>, cap: nat, k: int, w: nat)
    requires block > 0 && w < block
    ensures lengths != [] ==>
              (w / PerLevel(k) < CountRevealLevels(block, lengths, cap, true, k) <==> w / PerLevel(k) < cap)
    ensures lengths == [] ==> CountRevealLevels(block, lengths, cap, true, k) == 0
  {
    if lengths != [] {
      LevelsReachBlock(block, lengths, k, CountRevealLevels(block, lengths, 0, false, k));
      assert LevelOf(w, k) < CountRevealLevels(block, lengths, 0, false, k);
    }
  }

  // ---------------------------------------------------------------- full blocks

  predicate Reveals(b: Base, offset: int, block: nat, k: int, level: nat, c: int)
    requires block > 0
  {
    InResponse(b, offset, c) && Within(c, offset, block) < level * Width(k)
  }

  predicate Harvests(b: Base, offset: int, block: nat, k: int, level: nat, c: nat)
    requires block > 0 && c < |b.score|
  {
    InResponse(b, offset, c) && level * Width(k) <= Within(c, offset, block) < level * Width(k) + Width(k) &&
      b.score[c] > 0.5
  }

  /** `make_reveal_level_view` without a selection. */
  function FullView(b: Base, offset: int, block: nat, k: int, level: nat): LevelView
    requires block > 0 && Shaped(b)
  {
    LevelView(
      seq(|b.ids|, c requires 0 <= c < |b.ids| =>
        if Reveals(b, offset, block, k, level, c) then b.targets[c] else b.ids[c]),
      seq(|b.ids|, c requires 0 <= c < |b.ids| => Harvests(b, offset, block, k, level, c)))
  }

  /** Tokens revealed per level: k, but at least one. */
  function PerLevel(k: int): nat
  {
    if k >= 1 then k else 1
  }

  /** A level shows, of every block of the response, the offsets below level times k, and is scored at the next k
      of them where the score mask is set. */
  lemma LevelViewIs(b: Base, offset: int, block: nat, k: int, level: nat, c: nat)
    requires block > 0 && Shaped(b) && c < |b.ids|
    ensures var v, lo := FullView(b, offset, block, k, level), level * PerLevel(k);
            var inside := 0 <= c - offset < b.response;
            && |v.ids| == |v.harvest| == |b.ids|
            && v.ids[c] == (if inside && (c - offset) % block < lo then b.targets[c] else b.ids[c])
            && (v.harvest[c] <==> inside && lo <= (c - offset) % block < lo + PerLevel(k) && b.score[c] > 0.5)
  {
  }

  /** A scored response token is harvested in one level only: its offset in its block, divided by k. */
  lemma HarvestedOnce(b: Base, offset: int, block: nat, k: int, level: nat, c: nat)
    requires block > 0 && Shaped(b) && c < |b.ids|
    ensures Harvests(b, offset, block, k, level, c)
       <==> InResponse(b, offset, c) && b.score[c] > 0.5 && level == LevelOf(Within(c, offset, block), k)
    ensures FullView(b, offset, block, k, level).harvest[c]
       <==> 0 <= c - offset < b.response && b.score[c] > 0.5 && level == (c - offset) % block / PerLevel(k)
  {
    LevelIs(Within(c, offset, block), k, level);
  }

  /** A level hides what it harvests, and the next level shows what was shown or harvested before: tokens
      appear window by window, each after it was scored. */
  lemma LevelsUnfold(b: Base, offset: int, block: nat, k: int, level: nat, c: nat)
    requires block > 0 && Shaped(b) && c < |b.ids|
    ensures Harvests(b, offset, block, k, level, c) ==> FullView(b, offset, block, k, level).ids[c] == b.ids[c]
    ensures b.score[c] > 0.5 ==> (Reveals(b, offset, block, k, level + 1, c)
              <==> Reveals(b, offset, block, k, level, c) || Harvests(b, offset, block, k, level, c))
    ensures !Reveals(b, offset, block, k, 0, c)
  {
    MulStep(level + 1, Width(k));
  }

  function Views(bases: seq<Base>, offset: int, block: nat, k: int, levels: nat): seq<seq<LevelView>>
    requires block > 0 && forall i :: 0 <= i < |bases| ==> Shaped(bases[i])
  {
    seq(levels, l requires 0 <= l => seq(|bases|, i requires 0 <= i < |bases| =>
      FullView(bases[i], offset, block, k, l)))
  }

  /** Any network, scored level by level and summed, gives each completion token the score of the one
      view that harvests it, and 0 to every other position. */
  lemma BlockRevealReconstructs(score: Scorer, noisy: nat, starts: seq<nat>, bases: seq<Base>, offset: int,
      block: nat, k: int, levels: nat, i: nat, p: int)
    requires block > 0 && |starts| == |bases| && i < |bases|
    requires forall b :: 0 <= b < |bases| ==> Shaped(bases[b]) && noisy <= |bases[b].ids|
    requires offset >= 0 && offset + bases[i].response <= noisy
    requires ScoredExactly(bases[i], offset, noisy)
    ensures var c := p - starts[i] + offset;
            var level := LevelOf(Within(c, offset, block), k);
            Total(ScoreLevels(score, noisy, starts, Views(bases, offset, block, k, levels)), offset, i, p)
            == if starts[i] <= p < starts[i] + bases[i].response && level < levels
               then score(i, FullView(bases[i], offset, block, k, level).ids, c) else 0.0
  {
    var views := Views(bases, offset, block, k, levels);
    var c := p - starts[i] + offset;
    forall l | 0 <= l < levels && 0 <= c < noisy
      ensures var v: LevelView := views[l][i];
              v.harvest[c] <==> InResponse(bases[i], offset, c) && l == LevelOf(Within(c, offset, block), k)
    {
      HarvestedOnce(bases[i], offset, block, k, l, c);
    }
    if starts[i] <= p < starts[i] + bases[i].response {
      OneHarvestReconstructs(score, noisy, starts, views, offset, i, p, LevelOf(Within(c, offset, block), k));
    } else {
      NoHarvestIsZero(score, noisy, starts, views, offset, i, p);
    }
  }

  /** With the uncapped level count every completion token is reconstructed. */
  lemma FullCountReconstructs(score: Scorer, noisy: nat, starts: seq<nat>, bases: seq<Base>, offset: int, block: nat,
      k: int, lengths: seq<nat>, i: nat, p: int)
    requires block > 0 && |starts| == |bases| == |lengths| && i < |bases|
    requires forall b :: 0 <= b < |bases| ==> Shaped(bases[b]) && noisy <= |bases[b].ids|
    requires offset >= 0 && offset + bases[i].response <= noisy
    requires ScoredExactly(bases[i], offset, noisy)
    ensures CountRevealLevels(block, lengths, 0, false, k) >= 0
    ensures var views := Views(bases, offset, block, k, CountRevealLevels(block, lengths, 0, false, k));
            var c := p - starts[i] + offset;
            Total(ScoreLevels(score, noisy, starts, views), offset, i, p)
            == if starts[i] <= p < starts[i] + bases[i].response
               then score(i, FullView(bases[i], offset, block, k, LevelOf(Within(c, offset, block), k)).ids, c) else 0.0
  {
    var levels := CountRevealLevels(block, lengths, 0, false, k);
    BlockRevealReconstructs(score, noisy, starts, bases, offset, block, k, levels, i, p);
    LevelsReachBlock(block, lengths, k, levels);
  }
}
