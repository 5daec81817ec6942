/** From an accepted batch to per-token scores: block reveal and coupled masks over the completion
    layout, and block views at width 1 against leftmost-reveal rows
    (nemo_rl/algorithms/block_just_grpo_logprobs.py, nemo_rl/algorithms/coupled_grpo_logprobs.py and
    nemo_rl/algorithms/just_grpo_logprobs.py). */
module RevealAgreement {
  import opened CompletionSpan
  import opened CompletionLayout
  import opened RevealScatter
  import opened RevealLevels
  import Leftmost = LeftmostReveal

  /** What the builder wrote for one row, as the reveal levels read it back. */
  function BaseOf(r: Row, s: Shape, valid: nat, tail: Tail, ids: Ids): (b: Base)
    requires Placed(r)
    ensures Shaped(b) && |b.ids| == s.total
  {
    Base(seq(s.total, c requires 0 <= c => IdAt(r, s, valid, tail, ids, c)),
         seq(s.total, c requires 0 <= c => TargetAt(r, s, ids, c)),
         seq(s.total, c requires 0 <= c => ScoreAt(r, c)), r.response)
  }

  function BasesOf(rows: seq<Row>, block: nat, round: nat, tail: Tail, ids: Ids): (bases: seq<Base>)
    requires forall b :: 0 <= b < |rows| ==> Placed(rows[b])
    ensures |bases| == |rows| && forall b :: 0 <= b < |rows| ==> Shaped(bases[b])
  {
    var s := ShapeOf(rows, block, round, tail);
    seq(|rows|, b requires 0 <= b < |rows| => BaseOf(rows[b], s, NoisyValid(rows[b].response, block, tail), tail, ids))
  }

  /** The tokens a sample generated, in order. */
  function ScoredTokens(s: Sample): seq<int>
    requires |s.generated| == |s.tokens|
  {
    PositionsAscend(ScoreMask(s));
    seq(|Positions(ScoreMask(s))|, a requires 0 <= a < |Positions(ScoreMask(s))| =>
      s.tokens[Positions(ScoreMask(s))[a]])
  }

  /** Over the response the targets are the generated tokens, in order, and the inputs are MASK. */
  lemma NoisySpellsResponse(s: Sample, shape: Shape, block: nat, tail: Tail, ids: Ids)
    requires Fits(s) && ResponseLength(ScoreMask(s), s.length) >= 0 && Placed(RowOf(s))
    requires RowOf(s).response <= shape.noisy <= shape.total
    ensures var r := RowOf(s);
            var b := BaseOf(r, shape, NoisyValid(r.response, block, tail), tail, ids);
            b.targets[..r.response] == ScoredTokens(s) && forall c :: 0 <= c < r.response ==> b.ids[c] == ids.mask
  {
    var r, m := RowOf(s), ScoreMask(s);
    SpanIsMask(m, s.length);
    PositionsAscend(m);
    NoisyValidLeast(r.response, block, tail);
    if Positions(m) != [] {
      IntervalIsTight(m, |Positions(m)| - 1);
    }
    forall a | 0 <= a < |Positions(m)|
      ensures Positions(m)[a] == r.start + a
    {
      IntervalIsTight(m, a);
    }
  }

  /** The clean segment is the sample up to its last generated token, then padding. */
  lemma CleanSpellsPrefix(s: Sample, shape: Shape, block: nat, tail: Tail, ids: Ids)
    requires Fits(s) && ResponseLength(ScoreMask(s), s.length) >= 0 && Placed(RowOf(s))
    requires NoisyValid(RowOf(s).response, block, tail) <= shape.noisy && shape.noisy + RowOf(s).clean <= shape.total
    ensures var r := RowOf(s);
            var b := BaseOf(r, shape, NoisyValid(r.response, block, tail), tail, ids);
            && b.ids[shape.noisy..shape.noisy + r.clean] == s.tokens[..r.clean]
            && (forall c :: shape.noisy + r.clean <= c < shape.total ==> b.ids[c] == ids.pad)
            && (r.response > 0 ==> r.clean == r.start + r.response)
  {
    SpanIsMask(ScoreMask(s), s.length);
  }

  function StartsOf(rows: seq<Row>): seq<nat>
  {
    seq(|rows|, b requires 0 <= b < |rows| => rows[b].start)
  }

  lemma BaseFits(rows: seq<Row>, block: nat, round: nat, tail: Tail, ids: Ids, i: nat)
    requires i < |rows| && forall b :: 0 <= b < |rows| ==> Placed(rows[b])
    ensures var s, bases := ShapeOf(rows, block, round, tail), BasesOf(rows, block, round, tail, ids);
            && (forall b :: 0 <= b < |rows| ==> s.noisy <= |bases[b].ids|)
            && bases[i].response == rows[i].response <= s.noisy && ScoredExactly(bases[i], 0, s.noisy)
  {
    ShapeFits(rows, block, round, tail);
  }

  // ---------------------------------------------------------------- what the network is shown

  /** The input of one sample when the response columns for which `shows` holds are given away: there the sample's
      own tokens, MASK at the other response columns, and around them the layout's tail, padding and clean part. */
  ghost predicate Shown(s: Sample, r: Row, shape: Shape, block: nat, tail: Tail, ids: Ids, shows: nat -> bool,
      x: seq<int>)
    requires Placed(r) && r.tokens == s.tokens
  {
    |x| == shape.total && exists valid: nat ::
      IsNoisyValid(valid, r.response, block, tail) && ShownAround(s, r, shape, valid, tail, ids, shows, x)
  }

  ghost predicate ShownAround(s: Sample, r: Row, shape: Shape, valid: nat, tail: Tail, ids: Ids, shows: nat -> bool,
      x: seq<int>)
    requires Placed(r) && r.tokens == s.tokens
  {
    && (forall c: nat :: c < |x| && c < r.response && shows(c) ==> x[c] == s.tokens[r.start + c])
    && (forall c: nat :: c < |x| && c < r.response && !shows(c) ==> x[c] == ids.mask)
    && (forall c: nat :: r.response <= c < |x| && c < valid ==> x[c] == if tail == EosTail then ids.eos else ids.mask)
    && (forall c: nat :: r.response <= c < |x| && valid <= c < shape.noisy ==> x[c] == ids.pad)
    && (forall c: nat :: shape.noisy <= c < |x| && c < shape.noisy + r.clean ==> x[c] == s.tokens[c - shape.noisy])
    && (forall c: nat :: shape.noisy + r.clean <= c < |x| ==> x[c] == ids.pad)
  }

  /** A view of a built row is what shows its targets at the columns `shows` picks. */
  lemma ViewShown(s: Sample, r: Row, shape: Shape, block: nat, tail: Tail, ids: Ids, shows: nat -> bool, x: seq<int>)
    requires Placed(r) && r.tokens == s.tokens && r.response <= NoisyValid(r.response, block, tail) <= shape.noisy
    requires |x| == shape.total
    requires var b := BaseOf(r, shape, NoisyValid(r.response, block, tail), tail, ids);
             forall c: nat :: c < shape.total ==> x[c] == if c < r.response && shows(c) then b.targets[c] else b.ids[c]
    ensures Shown(s, r, shape, block, tail, ids, shows, x)
  {
    NoisyValidIs(r.response, block, tail);
  }

  /** In the view that harvests column c, the offsets of every block that lie before c's window are given away. */
  ghost function BeforeWindow(block: nat, k: int, c: nat): nat -> bool
    requires block > 0
  {
    u => u % block < c % block / PerLevel(k) * PerLevel(k)
  }

  lemma HarvestView(s: Sample, rows: seq<Row>, block: nat, round: nat, ids: Ids, k: int, i: nat, c: nat)
    requires block > 0 && i < |rows| && forall b :: 0 <= b < |rows| ==> Placed(rows[b])
    requires rows[i].tokens == s.tokens && c < rows[i].response
    ensures var shape := ShapeOf(rows, block, round, MaskTail);
            var base := BasesOf(rows, block, round, MaskTail, ids)[i];
            var view := FullView(base, 0, block, k, LevelOf(Within(c, 0, block), k));
            Shown(s, rows[i], shape, block, MaskTail, ids, BeforeWindow(block, k, c), view.ids)
  {
    var shape, base := ShapeOf(rows, block, round, MaskTail), BasesOf(rows, block, round, MaskTail, ids)[i];
    var level := c % block / PerLevel(k);
    var view := FullView(base, 0, block, k, level);
    ShapeFits(rows, block, round, MaskTail);
    forall u: nat | u < shape.total
      ensures view.ids[u] ==
                if u < rows[i].response && BeforeWindow(block, k, c)(u) then base.targets[u] else base.ids[u]
    {
      LevelViewIs(base, 0, block, k, level, u);
    }
    ViewShown(s, rows[i], shape, block, MaskTail, ids, BeforeWindow(block, k, c), view.ids);
  }

  /** The value is the network's score at column c of sample i when it is shown the response columns `shows`. */
  ghost predicate ScoredShowing(samples: seq<Sample>, rows: seq<Row>, block: nat, round: nat, tail: Tail, ids: Ids,
      score: Scorer, i: nat, c: int, shows: nat -> bool, value: real)
    requires DerivedFrom(samples, rows) && i < |samples|
  {
    exists x :: Shown(samples[i], rows[i], ShapeOf(rows, block, round, tail), block, tail, ids, shows, x) &&
      value == score(i, x, c)
  }

  function LengthsOf(rows: seq<Row>): seq<nat>
  {
    seq(|rows|, b requires 0 <= b < |rows| => rows[b].response)
  }

  /** The value at position p of sample i after scoring and summing all reveal levels of a batch. */
  function BlockRevealValue(rows: seq<Row>, block: nat, round: nat, ids: Ids, k: int, score: Scorer, i: nat,
      p: int): real
    requires block > 0 && rows != [] && forall b :: 0 <= b < |rows| ==> Placed(rows[b])
  {
    var bases, noisy := BasesOf(rows, block, round, MaskTail, ids), ShapeOf(rows, block, round, MaskTail).noisy;
    CountNonNegative(block, LengthsOf(rows), k);
    var levels := CountRevealLevels(block, LengthsOf(rows), 0, false, k);
    forall b | 0 <= b < |rows| ensures noisy <= |bases[b].ids| { BaseFits(rows, block, round, MaskTail, ids, b); }
    Total(ScoreLevels(score, noisy, StartsOf(rows), Views(bases, 0, block, k, levels)), 0, i, p)
  }

  lemma CountNonNegative(block: nat, lengths: seq<nat>, k: int)
    ensures CountRevealLevels(block, lengths, 0, false, k) >= 0
  {
  }

  /** The network's score for column c of sample i in the one view that harvests it: the view that hides
      the token and shows the `level * k` offsets before its window. */
  function HarvestScore(rows: seq<Row>, block: nat, round: nat, ids: Ids, k: int, score: Scorer, i: nat, c: int): real
    requires block > 0 && i < |rows| && forall b :: 0 <= b < |rows| ==> Placed(rows[b])
  {
    var base := BasesOf(rows, block, round, MaskTail, ids)[i];
    score(i, FullView(base, 0, block, k, LevelOf(Within(c, 0, block), k)).ids, c)
  }

  lemma BlockRevealRows(rows: seq<Row>, block: nat, round: nat, ids: Ids, k: int, score: Scorer, i: nat, p: int)
    requires block > 0 && i < |rows| && forall b :: 0 <= b < |rows| ==> Placed(rows[b])
    ensures BlockRevealValue(rows, block, round, ids, k, score, i, p)
         == if rows[i].start <= p < rows[i].start + rows[i].response
            then HarvestScore(rows, block, round, ids, k, score, i, p - rows[i].start) else 0.0
  {
    var bases, noisy := BasesOf(rows, block, round, MaskTail, ids), ShapeOf(rows, block, round, MaskTail).noisy;
    BaseFits(rows, block, round, MaskTail, ids, i);
    FullCountReconstructs(score, noisy, StartsOf(rows), bases, 0, block, k, LengthsOf(rows), i, p);
  }

  /** The derived start and length mark exactly the scored tokens. */
  lemma InSpan(samples: seq<Sample>, rows: seq<Row>, i: nat, p: nat)
    requires DerivedFrom(samples, rows) && i < |samples| && p < |samples[i].tokens|
    ensures ScoreMask(samples[i])[p] <==> rows[i].start <= p < rows[i].start + rows[i].response
  {
    SpanIsMask(ScoreMask(samples[i]), samples[i].length);
  }

  /** Block reveal over a batch: for any network, block size, width and lengths, summing the levels gives
      every generated token its own score, from the one view that harvests it, and 0 to every other
      token of the batch. */
  lemma BlockRevealExact(samples: seq<Sample>, rows: seq<Row>, block: nat, round: nat, ids: Ids, k: int,
      score: Scorer, i: nat, p: nat)
    requires DerivedFrom(samples, rows) && block > 0 && i < |samples| && p < |samples[i].tokens|
    ensures BlockRevealValue(rows, block, round, ids, k, score, i, p)
         == if ScoreMask(samples[i])[p]
            then HarvestScore(rows, block, round, ids, k, score, i, p - rows[i].start) else 0.0
  {
    InSpan(samples, rows, i, p);
    BlockRevealRows(rows, block, round, ids, k, score, i, p);
  }

  lemma HarvestShows(samples: seq<Sample>, rows: seq<Row>, block: nat, round: nat, ids: Ids, k: int, score: Scorer,
      i: nat, c: nat, value: real)
    requires DerivedFrom(samples, rows) && block > 0 && i < |samples| && c < rows[i].response
    requires value == HarvestScore(rows, block, round, ids, k, score, i, c)
    ensures ScoredShowing(samples, rows, block, round, MaskTail, ids, score, i, c, BeforeWindow(block, k, c), value)
  {
    HarvestView(samples[i], rows, block, round, ids, k, i, c);
  }

  /** What that score is: the network's, at the token's own column, when of every block it is shown the offsets
      before the token's window and MASK from there on. */
  lemma BlockRevealShows(samples: seq<Sample>, rows: seq<Row>, block: nat, round: nat, ids: Ids, k: int,
      score: Scorer, i: nat, p: nat, value: real)
    requires DerivedFrom(samples, rows) && block > 0 && i < |samples| && p < |samples[i].tokens|
    requires ScoreMask(samples[i])[p] && value == BlockRevealValue(rows, block, round, ids, k, score, i, p)
    ensures var c := p - rows[i].start;
            && 0 <= c < rows[i].response
            && ScoredShowing(samples, rows, block, round, MaskTail, ids, score, i, c, BeforeWindow(block, k, c), value)
  {
    InSpan(samples, rows, i, p);
    BlockRevealExact(samples, rows, block, round, ids, k, score, i, p);
    HarvestShows(samples, rows, block, round, ids, k, score, i, p - rows[i].start, value);
  }

  // ---------------------------------------------------------------- width 1 and leftmost reveal

  /** At width 1, in the block a token is harvested in, the block view shows what the leftmost-reveal
      row for that token shows: real tokens before it, MASK from it on. */
  lemma BlockViewIsLeftmostRow(s: Sample, shape: Shape, block: nat, tail: Tail, ids: Ids, t: nat, u: nat)
    requires Fits(s) && block > 0
    requires ResponseLength(ScoreMask(s), s.length) >= 0 && var r := RowOf(s);
             Placed(r) && t < r.response && u < r.response && t / block == u / block &&
               r.response <= shape.noisy <= shape.total
    ensures var r := RowOf(s);
            var view := FullView(BaseOf(r, shape, NoisyValid(r.response, block, tail), tail, ids), 0, block, 1,
              LevelOf(Within(t, 0, block), 1));
            && view.harvest[t]
            && view.ids[u] == Leftmost.Hidden(s, r.start + t, ids.mask)[r.start + u]
  {
    var r := RowOf(s);
    var base := BaseOf(r, shape, NoisyValid(r.response, block, tail), tail, ids);
    var level := LevelOf(Within(t, 0, block), 1);
    assert level == t % block;
    NoisyValidLeast(r.response, block, tail);
    SpanIsMask(ScoreMask(s), s.length);
    SameBlockOrder(t, u, block);
    assert Reveals(base, 0, block, 1, level, u) <==> u < t;
    HarvestedOnce(base, 0, block, 1, level, t);
    assert base.targets[u] == s.tokens[r.start + u] && base.ids[u] == ids.mask;
  }

  lemma SameBlockOrder(t: nat, u: nat, block: nat)
    requires block > 0 && t / block == u / block
    ensures u % block < t % block <==> u < t
  {
    assert t == t / block * block + t % block;
    assert u == u / block * block + u % block;
  }

  // ---------------------------------------------------------------- coupled masks

  /** `make_coupled_level_view`: the even level of a pair hides its mask, the odd level the rest. */
  function CoupledView(b: Base, offset: int, level0: seq<bool>, complement: bool): LevelView
    requires Shaped(b) && |level0| == |b.ids|
  {
    LevelView(
      seq(|b.ids|, c requires 0 <= c < |b.ids| =>
        if Valid(b, offset, c) && !Masked(b, offset, level0, complement, c) then b.targets[c] else b.ids[c]),
      seq(|b.ids|, c requires 0 <= c < |b.ids| => Masked(b, offset, level0, complement, c)))
  }

  predicate Valid(b: Base, offset: int, c: nat)
    requires c < |b.score|
  {
    InResponse(b, offset, c) && b.score[c] > 0.5
  }

  predicate Masked(b: Base, offset: int, level0: seq<bool>, complement: bool, c: nat)
    requires c < |b.score| && c < |level0|
  {
    Valid(b, offset, c) && level0[c] != complement
  }

  /** A token is scored in one level of the pair, where it is hidden, and shown in the other. */
  lemma CoupledPartition(b: Base, offset: int, level0: seq<bool>, c: nat)
    requires Shaped(b) && |level0| == |b.ids| && c < |b.ids|
    ensures var even, odd := CoupledView(b, offset, level0, false), CoupledView(b, offset, level0, true);
            && (Valid(b, offset, c) <==> even.harvest[c] || odd.harvest[c])
            && !(even.harvest[c] && odd.harvest[c])
            && (even.harvest[c] ==> even.ids[c] == b.ids[c] && odd.ids[c] == b.targets[c])
            && (odd.harvest[c] ==> odd.ids[c] == b.ids[c] && even.ids[c] == b.targets[c])
  {
  }

  /** Both levels of one pair, for every sample. */
  function PairViews(bases: seq<Base>, offset: int, masks: seq<seq<bool>>): seq<seq<LevelView>>
    requires |masks| == |bases| && forall i :: 0 <= i < |bases| ==> Shaped(bases[i]) && |masks[i]| == |bases[i].ids|
  {
    [seq(|bases|, i requires 0 <= i < |bases| => CoupledView(bases[i], offset, masks[i], false)),
     seq(|bases|, i requires 0 <= i < |bases| => CoupledView(bases[i], offset, masks[i], true))]
  }

  /** The value at position p of sample i after scoring and summing the two levels of a pair. */
  function CoupledValue(rows: seq<Row>, block: nat, round: nat, tail: Tail, ids: Ids, masks: seq<seq<bool>>,
      score: Scorer, i: nat, p: int): real
    requires forall b :: 0 <= b < |rows| ==> Placed(rows[b])
    requires MasksFit(rows, block, round, tail, masks)
  {
    var bases, noisy := BasesOf(rows, block, round, tail, ids), ShapeOf(rows, block, round, tail).noisy;
    Total(ScoreLevels(score, noisy, StartsOf(rows), PairViews(bases, 0, masks)), 0, i, p)
  }

  ghost predicate MasksFit(rows: seq<Row>, block: nat, round: nat, tail: Tail, masks: seq<seq<bool>>)
  {
    |masks| == |rows| && forall b :: 0 <= b < |masks| ==> |masks[b]| == ShapeOf(rows, block, round, tail).total
  }

  /** The network's score for column c of sample i in the level of the pair that hides it. */
  function HiddenScore(rows: seq<Row>, block: nat, round: nat, tail: Tail, ids: Ids, masks: seq<seq<bool>>,
      score: Scorer, i: nat, c: int): real
    requires i < |rows| && forall b :: 0 <= b < |rows| ==> Placed(rows[b])
    requires MasksFit(rows, block, round, tail, masks) && 0 <= c < |masks[i]|
  {
    score(i, CoupledView(BasesOf(rows, block, round, tail, ids)[i], 0, masks[i], !masks[i][c]).ids, c)
  }

  lemma PairReconstructs(noisy: nat, starts: seq<nat>, bases: seq<Base>, masks: seq<seq<bool>>, score: Scorer, i: nat,
      p: int)
    requires |starts| == |bases| == |masks| && i < |bases|
    requires forall b :: 0 <= b < |bases| ==>
              Shaped(bases[b]) && |masks[b]| == |bases[b].ids| && noisy <= |bases[b].ids|
    requires bases[i].response <= noisy && ScoredExactly(bases[i], 0, noisy)
    ensures var c := p - starts[i];
            Total(ScoreLevels(score, noisy, starts, PairViews(bases, 0, masks)), 0, i, p)
            == if 0 <= c < bases[i].response
               then score(i, CoupledView(bases[i], 0, masks[i], !masks[i][c]).ids, c) else 0.0
  {
    var views, c := PairViews(bases, 0, masks), p - starts[i];
    forall l | 0 <= l < 2 && 0 <= c < noisy
      ensures var v: LevelView := views[l][i];
              v.harvest[c] <==> 0 <= c < bases[i].response && l == if masks[i][c] then 0 else 1
    {
    }
    if 0 <= c < bases[i].response {
      OneHarvestReconstructs(score, noisy, starts, views, 0, i, p, if masks[i][c] then 0 else 1);
    } else {
      NoHarvestIsZero(score, noisy, starts, views, 0, i, p);
    }
  }

  lemma CoupledRows(rows: seq<Row>, block: nat, round: nat, tail: Tail, ids: Ids, masks: seq<seq<bool>>,
      score: Scorer, i: nat, p: int)
    requires i < |rows| && forall b :: 0 <= b < |rows| ==> Placed(rows[b])
    requires MasksFit(rows, block, round, tail, masks)
    ensures rows[i].response <= |masks[i]|
    ensures CoupledValue(rows, block, round, tail, ids, masks, score, i, p)
         == if rows[i].start <= p < rows[i].start + rows[i].response
            then HiddenScore(rows, block, round, tail, ids, masks, score, i, p - rows[i].start) else 0.0
  {
    ShapeFits(rows, block, round, tail);
    BaseFits(rows, block, round, tail, ids, i);
    PairReconstructs(ShapeOf(rows, block, round, tail).noisy, StartsOf(rows), BasesOf(rows, block, round, tail, ids),
      masks, score, i, p);
  }

  /** Whatever the mask of a pair, its two levels together give every generated token its score from
      the level that hides it, and 0 to every other token. */
  lemma CoupledPairExact(samples: seq<Sample>, rows: seq<Row>, block: nat, round: nat, tail: Tail, ids: Ids,
      masks: seq<seq<bool>>, score: Scorer, i: nat, p: nat)
    requires DerivedFrom(samples, rows) && i < |samples| && p < |samples[i].tokens|
    requires MasksFit(rows, block, round, tail, masks)
    ensures ScoreMask(samples[i])[p] ==> 0 <= p - rows[i].start < |masks[i]|
    ensures CoupledValue(rows, block, round, tail, ids, masks, score, i, p)
         == if ScoreMask(samples[i])[p]
            then HiddenScore(rows, block, round, tail, ids, masks, score, i, p - rows[i].start) else 0.0
  {
    InSpan(samples, rows, i, p);
    CoupledRows(rows, block, round, tail, ids, masks, score, i, p);
  }

  /** The level that hides column c gives away the columns whose mask entry differs. */
  ghost function OtherLevel(mask: seq<bool>, c: nat): nat -> bool
  {
    (u: nat) => u < |mask| && c < |mask| && mask[u] != mask[c]
  }

  lemma HiddenShows(samples: seq<Sample>, rows: seq<Row>, block: nat, round: nat, tail: Tail, ids: Ids,
      masks: seq<seq<bool>>, score: Scorer, i: nat, c: nat, value: real)
    requires DerivedFrom(samples, rows) && i < |samples| && MasksFit(rows, block, round, tail, masks) && c < |masks[i]|
    requires value == HiddenScore(rows, block, round, tail, ids, masks, score, i, c)
    ensures ScoredShowing(samples, rows, block, round, tail, ids, score, i, c, OtherLevel(masks[i], c), value)
  {
    HiddenView(samples[i], rows, block, round, tail, ids, masks, i, c);
  }

  /** What that score is: the network's, at the token's own column, when it is shown the response tokens that the
      pair's mask treats otherwise, and MASK for the token and those treated alike. */
  lemma CoupledPairShows(samples: seq<Sample>, rows: seq<Row>, block: nat, round: nat, tail: Tail, ids: Ids,
      masks: seq<seq<bool>>, score: Scorer, i: nat, p: nat, value: real)
    requires DerivedFrom(samples, rows) && i < |samples| && p < |samples[i].tokens|
    requires MasksFit(rows, block, round, tail, masks) && ScoreMask(samples[i])[p]
    requires value == CoupledValue(rows, block, round, tail, ids, masks, score, i, p)
    ensures var c := p - rows[i].start;
            && 0 <= c < |masks[i]|
            && ScoredShowing(samples, rows, block, round, tail, ids, score, i, c, OtherLevel(masks[i], c), value)
  {
    CoupledPairExact(samples, rows, block, round, tail, ids, masks, score, i, p);
    HiddenShows(samples, rows, block, round, tail, ids, masks, score, i, p - rows[i].start, value);
  }

  lemma HiddenView(s: Sample, rows: seq<Row>, block: nat, round: nat, tail: Tail, ids: Ids, masks: seq<seq<bool>>,
      i: nat, c: nat)
    requires i < |rows| && forall b :: 0 <= b < |rows| ==> Placed(rows[b])
    requires MasksFit(rows, block, round, tail, masks) && c < |masks[i]|
    requires rows[i].tokens == s.tokens
    ensures var shape, base := ShapeOf(rows, block, round, tail), BasesOf(rows, block, round, tail, ids)[i];
            Shown(s, rows[i], shape, block, tail, ids, OtherLevel(masks[i], c),
                  CoupledView(base, 0, masks[i], !masks[i][c]).ids)
  {
    var shape, base := ShapeOf(rows, block, round, tail), BasesOf(rows, block, round, tail, ids)[i];
    ShapeFits(rows, block, round, tail);
    ViewShown(s, rows[i], shape, block, tail, ids, OtherLevel(masks[i], c),
              CoupledView(base, 0, masks[i], !masks[i][c]).ids);
  }
}
