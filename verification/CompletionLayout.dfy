/** The completion-only layout `[noisy response | clean prompt and response]` of a DiffuGRPO batch
    (nemo_rl/algorithms/diffu_grpo_logprobs.py, lines 130-272), without context-parallel padding. */
module CompletionLayout {
  import opened Arithmetic
  import opened CompletionSpan

  datatype Tail = MaskTail | EosTail | NoTail

  datatype Ids = Ids(mask: int, pad: int, eos: int)

  /** What one row contributes: its tokens, and where its response and clean part lie. */
  datatype Row = Row(tokens: seq<int>, start: nat, response: nat, clean: nat)

  /** The lengths the caller derives for a row. */
  ghost predicate Placed(r: Row)
  {
    r.start + r.response <= |r.tokens| && r.clean <= |r.tokens|
  }

  // ---------------------------------------------------------------- lengths

  function NoisyValid(response: nat, block: nat, tail: Tail): nat
  {
    if tail != NoTail && block > 0 then (if response > 0 then RoundUp(response, block) else response)
    else response
  }

  /** Whole blocks, as few as hold the response; the response itself when nothing is padded. */
  lemma NoisyValidLeast(response: nat, block: nat, tail: Tail)
    ensures NoisyValid(response, block, tail) >= response
    ensures tail != NoTail && block > 0 ==>
              NoisyValid(response, block, tail) % block == 0
              && forall k: nat :: k * block >= response ==> NoisyValid(response, block, tail) <= k * block
    ensures tail == NoTail || block == 0 ==> NoisyValid(response, block, tail) == response
  {
    if tail != NoTail && block > 0 {
      RoundUpLeast(response, block);
    }
  }

  function Maximum(s: seq<nat>): (m: nat)
    ensures forall i :: 0 <= i < |s| ==> s[i] <= m
    ensures s != [] ==> m in s
  {
    if s == [] then 0
    else
      var rest := Maximum(s[..|s| - 1]);
      if s[|s| - 1] > rest || |s| == 1 then s[|s| - 1] else rest
  }

  datatype Shape = Shape(noisy: nat, clean: nat, total: nat)

  function NoisyLengths(rows: seq<Row>, block: nat, tail: Tail): seq<nat>
  {
    seq(|rows|, b requires 0 <= b < |rows| => NoisyValid(rows[b].response, block, tail))
  }

  function CleanLengths(rows: seq<Row>): seq<nat>
  {
    seq(|rows|, b requires 0 <= b < |rows| => rows[b].clean)
  }

  /** Least total that holds both segments and, when `round` is set, is a multiple of it. */
  function RoundedTotal(noisy: nat, clean: nat, round: nat): (t: nat)
    ensures noisy + clean <= t
    ensures round > 0 ==> t % round == 0 && forall k: nat :: k * round >= noisy + clean ==> t <= k * round
    ensures round == 0 ==> t == noisy + clean
  {
    if round > 0 then
      RoundUpLeast(noisy + clean, round);
      RoundUp(noisy + clean, round)
    else noisy + clean
  }

  /** Rounding slack goes to the clean segment. */
  function ShapeOf(rows: seq<Row>, block: nat, round: nat, tail: Tail): Shape
  {
    var noisy, clean := Maximum(NoisyLengths(rows, block, tail)), Maximum(CleanLengths(rows));
    var total := RoundedTotal(noisy, clean, round);
    Shape(noisy, clean + (total - (noisy + clean)), total)
  }

  /** The segments tile the layout and every row fits in both. */
  lemma ShapeFits(rows: seq<Row>, block: nat, round: nat, tail: Tail)
    ensures var s := ShapeOf(rows, block, round, tail);
            && s.noisy + s.clean == s.total
            && forall b :: 0 <= b < |rows| ==>
                 rows[b].response <= NoisyValid(rows[b].response, block, tail) <= s.noisy && rows[b].clean <= s.clean
  {
    forall b | 0 <= b < |rows|
      ensures rows[b].response <= NoisyValid(rows[b].response, block, tail)
      ensures NoisyValid(rows[b].response, block, tail) <= Maximum(NoisyLengths(rows, block, tail))
      ensures rows[b].clean <= Maximum(CleanLengths(rows))
    {
      NoisyValidLeast(rows[b].response, block, tail);
      assert NoisyLengths(rows, block, tail)[b] <= Maximum(NoisyLengths(rows, block, tail));
      assert CleanLengths(rows)[b] <= Maximum(CleanLengths(rows));
    }
  }

  // ---------------------------------------------------------------- contents

  /** The input id at one column of a row: MASK over the response, the tail after it, the clean
      tokens in the clean segment and padding everywhere else. */
  function IdAt(r: Row, s: Shape, valid: nat, tail: Tail, ids: Ids, c: nat): int
    requires Placed(r)
  {
    if s.noisy <= c < s.noisy + r.clean then r.tokens[c - s.noisy]
    else if c >= valid then ids.pad
    else if tail == EosTail && c >= r.response then ids.eos
    else ids.mask
  }

  function TargetAt(r: Row, s: Shape, ids: Ids, c: nat): int
    requires Placed(r)
  {
    if s.noisy <= c < s.noisy + r.clean then r.tokens[c - s.noisy]
    else if c < r.response then r.tokens[r.start + c]
    else ids.pad
  }

  function ScoreAt(r: Row, c: nat): real
  {
    if c < r.response then 1.0 else 0.0
  }

  // ---------------------------------------------------------------- the layout, range by range

  /** The noisy length of a row: whole blocks, as few as hold the response, or the response itself when nothing is
      padded. */
  ghost predicate IsNoisyValid(valid: nat, response: nat, block: nat, tail: Tail)
  {
    if tail != NoTail && block > 0 then valid % block == 0 && response <= valid < response + block
    else valid == response
  }

  lemma NoisyValidIs(response: nat, block: nat, tail: Tail)
    ensures IsNoisyValid(NoisyValid(response, block, tail), response, block, tail)
  {
    if tail != NoTail && block > 0 {
      RoundUpLeast(response, block);
    }
  }

  ghost predicate IsMaximum(m: nat, xs: seq<nat>)
  {
    (if xs == [] then m == 0 else m in xs) && forall i :: 0 <= i < |xs| ==> xs[i] <= m
  }

  /** Noisy lengths of all rows. */
  ghost predicate AreNoisyValid(valids: seq<nat>, rows: seq<Row>, block: nat, tail: Tail)
  {
    |valids| == |rows| && forall b :: 0 <= b < |rows| ==> IsNoisyValid(valids[b], rows[b].response, block, tail)
  }

  ghost predicate AreClean(cleans: seq<nat>, rows: seq<Row>)
  {
    |cleans| == |rows| && forall b :: 0 <= b < |rows| ==> cleans[b] == rows[b].clean
  }

  /** The longest noisy length, and behind it room for the longest clean length, rounded up. */
  ghost predicate IsShape(rows: seq<Row>, block: nat, round: nat, tail: Tail, s: Shape)
  {
    exists valids: seq<nat>, cleans: seq<nat>, clean: nat ::
      AreNoisyValid(valids, rows, block, tail) && IsMaximum(s.noisy, valids) &&
      AreClean(cleans, rows) && IsMaximum(clean, cleans) && s.total == s.noisy + s.clean &&
      (if round > 0 then s.total % round == 0 && clean <= s.clean < clean + round else s.clean == clean)
  }

  lemma ShapeOfIsShape(rows: seq<Row>, block: nat, round: nat, tail: Tail)
    ensures IsShape(rows, block, round, tail, ShapeOf(rows, block, round, tail))
  {
    var valids, cleans := NoisyLengths(rows, block, tail), CleanLengths(rows);
    forall b | 0 <= b < |rows|
      ensures IsNoisyValid(valids[b], rows[b].response, block, tail)
    {
      NoisyValidIs(rows[b].response, block, tail);
    }
    var noisy, clean := Maximum(valids), Maximum(cleans);
    if round > 0 {
      RoundUpLeast(noisy + clean, round);
    }
    assert IsMaximum(noisy, valids) && IsMaximum(clean, cleans);
    assert AreNoisyValid(valids, rows, block, tail) && AreClean(cleans, rows);
  }

  /** What one cell of a row holds, by the range its column lies in: response, tail, padding, clean part, padding. */
  ghost predicate CellIs(r: Row, s: Shape, valid: nat, tail: Tail, ids: Ids, c: nat, id: int, target: int, score: real)
    requires Placed(r)
  {
    if c < r.response then id == ids.mask && target == r.tokens[r.start + c] && score == 1.0
    else if c < valid then id == (if tail == EosTail then ids.eos else ids.mask) && target == ids.pad && score == 0.0
    else if c < s.noisy then id == target == ids.pad && score == 0.0
    else if c < s.noisy + r.clean then id == target == r.tokens[c - s.noisy] && score == 0.0
    else id == target == ids.pad && score == 0.0
  }

  ghost predicate CellFits(r: Row, s: Shape, block: nat, tail: Tail, ids: Ids, c: nat, id: int, target: int,
      score: real)
    requires Placed(r)
  {
    exists valid: nat ::
      IsNoisyValid(valid, r.response, block, tail) && CellIs(r, s, valid, tail, ids, c, id, target, score)
  }

  lemma CellByRange(r: Row, s: Shape, block: nat, tail: Tail, ids: Ids, c: nat)
    requires Placed(r) && r.response <= NoisyValid(r.response, block, tail) <= s.noisy
    ensures var valid := NoisyValid(r.response, block, tail);
            CellIs(r, s, valid, tail, ids, c, IdAt(r, s, valid, tail, ids, c), TargetAt(r, s, ids, c), ScoreAt(r, c))
    ensures var valid := NoisyValid(r.response, block, tail);
            CellFits(r, s, block, tail, ids, c, IdAt(r, s, valid, tail, ids, c), TargetAt(r, s, ids, c), ScoreAt(r, c))
  {
    NoisyValidIs(r.response, block, tail);
  }

  /** The three tensors of a batch, cell by cell. */
  ghost predicate CellsFit(rows: seq<Row>, s: Shape, block: nat, tail: Tail, ids: Ids,
      inputIds: array2<int>, targets: array2<int>, scores: array2<real>)
    requires forall b :: 0 <= b < |rows| ==> Placed(rows[b])
    reads inputIds, targets, scores
  {
    && inputIds.Length0 == targets.Length0 == scores.Length0 == |rows|
    && inputIds.Length1 == targets.Length1 == scores.Length1 == s.total
    && forall b, c :: 0 <= b < |rows| && 0 <= c < s.total ==>
         CellFits(rows[b], s, block, tail, ids, c, inputIds[b, c], targets[b, c], scores[b, c])
  }

  lemma FilledFits(rows: seq<Row>, block: nat, round: nat, tail: Tail, ids: Ids, s: Shape,
      inputIds: array2<int>, targets: array2<int>, scores: array2<real>)
    requires forall b :: 0 <= b < |rows| ==> Placed(rows[b])
    requires s == ShapeOf(rows, block, round, tail)
    requires inputIds.Length0 == targets.Length0 == scores.Length0 == |rows|
    requires inputIds.Length1 == targets.Length1 == scores.Length1 == s.total
    requires forall b, c :: 0 <= b < |rows| && 0 <= c < s.total ==>
               inputIds[b, c] == IdAt(rows[b], s, NoisyValid(rows[b].response, block, tail), tail, ids, c)
    requires forall b, c :: 0 <= b < |rows| && 0 <= c < s.total ==> targets[b, c] == TargetAt(rows[b], s, ids, c)
    requires forall b, c :: 0 <= b < |rows| && 0 <= c < s.total ==> scores[b, c] == ScoreAt(rows[b], c)
    ensures CellsFit(rows, s, block, tail, ids, inputIds, targets, scores)
  {
    ShapeFits(rows, block, round, tail);
    forall b, c | 0 <= b < |rows| && 0 <= c < s.total
      ensures CellFits(rows[b], s, block, tail, ids, c, inputIds[b, c], targets[b, c], scores[b, c])
    {
      CellByRange(rows[b], s, block, tail, ids, c);
    }
  }

  // ---------------------------------------------------------------- filling it

  /** Overwrite one row of the padded input ids: clean slice, MASK slice, tail slice. */
  method FillIds(a: array2<int>, b: nat, r: Row, s: Shape, valid: nat, tail: Tail, ids: Ids)
    requires b < a.Length0 && a.Length1 == s.total == s.noisy + s.clean && Placed(r)
    requires r.response <= valid <= s.noisy && r.clean <= s.clean
    requires forall c :: 0 <= c < s.total ==> a[b, c] == ids.pad
    modifies a
    ensures forall c :: 0 <= c < s.total ==> a[b, c] == IdAt(r, s, valid, tail, ids, c)
    ensures forall x, c :: 0 <= x < a.Length0 && 0 <= c < s.total && x != b ==> a[x, c] == old(a[x, c])
  {
    if r.clean > 0 {
      forall c | s.noisy <= c < s.noisy + r.clean {
        a[b, c] := r.tokens[c - s.noisy];
      }
    }
    if valid > 0 {
      forall c | 0 <= c < valid {
        a[b, c] := ids.mask;
      }
      if tail == EosTail && valid > r.response {
        forall c | r.response <= c < valid {
          a[b, c] := ids.eos;
        }
      }
    }
  }

  method FillTargets(a: array2<int>, b: nat, r: Row, s: Shape, ids: Ids)
    requires b < a.Length0 && a.Length1 == s.total == s.noisy + s.clean && Placed(r)
    requires r.response <= s.noisy && r.clean <= s.clean
    requires forall c :: 0 <= c < s.total ==> a[b, c] == ids.pad
    modifies a
    ensures forall c :: 0 <= c < s.total ==> a[b, c] == TargetAt(r, s, ids, c)
    ensures forall x, c :: 0 <= x < a.Length0 && 0 <= c < s.total && x != b ==> a[x, c] == old(a[x, c])
  {
    if r.clean > 0 {
      forall c | s.noisy <= c < s.noisy + r.clean {
        a[b, c] := r.tokens[c - s.noisy];
      }
    }
    if r.response > 0 {
      forall c | 0 <= c < r.response {
        a[b, c] := r.tokens[r.start + c];
      }
    }
  }

  method FillScores(a: array2<real>, b: nat, r: Row)
    requires b < a.Length0 && r.response <= a.Length1
    requires forall c :: 0 <= c < a.Length1 ==> a[b, c] == 0.0
    modifies a
    ensures forall c :: 0 <= c < a.Length1 ==> a[b, c] == ScoreAt(r, c)
    ensures forall x, c :: 0 <= x < a.Length0 && 0 <= c < a.Length1 && x != b ==> a[x, c] == old(a[x, c])
  {
    if r.response > 0 {
      forall c | 0 <= c < r.response {
        a[b, c] := 1.0;
      }
    }
  }

  /** `_build_completion_only_tensors`: fresh padded tensors whose rows are overwritten slice by slice. */
  method BuildCompletionOnly(rows: seq<Row>, block: nat, round: nat, tail: Tail, ids: Ids)
    returns (shape: Shape, inputIds: array2<int>, targets: array2<int>, scores: array2<real>)
    requires forall b :: 0 <= b < |rows| ==> Placed(rows[b])
    ensures shape == ShapeOf(rows, block, round, tail)
    ensures inputIds.Length0 == targets.Length0 == scores.Length0 == |rows|
    ensures inputIds.Length1 == targets.Length1 == scores.Length1 == shape.total
    ensures forall b, c :: 0 <= b < |rows| && 0 <= c < shape.total ==>
              inputIds[b, c] == IdAt(rows[b], shape, NoisyValid(rows[b].response, block, tail), tail, ids, c)
    ensures forall b, c :: 0 <= b < |rows| && 0 <= c < shape.total ==> targets[b, c] == TargetAt(rows[b], shape, ids, c)
    ensures forall b, c :: 0 <= b < |rows| && 0 <= c < shape.total ==> scores[b, c] == ScoreAt(rows[b], c)
    ensures IsShape(rows, block, round, tail, shape)
    ensures CellsFit(rows, shape, block, tail, ids, inputIds, targets, scores)
  {
    shape, inputIds, targets, scores := FillAll(rows, block, round, tail, ids);
    ShapeOfIsShape(rows, block, round, tail);
    FilledFits(rows, block, round, tail, ids, shape, inputIds, targets, scores);
  }

  method FillAll(rows: seq<Row>, block: nat, round: nat, tail: Tail, ids: Ids)
    returns (shape: Shape, inputIds: array2<int>, targets: array2<int>, scores: array2<real>)
    requires forall b :: 0 <= b < |rows| ==> Placed(rows[b])
    ensures shape == ShapeOf(rows, block, round, tail)
    ensures inputIds.Length0 == targets.Length0 == scores.Length0 == |rows|
    ensures inputIds.Length1 == targets.Length1 == scores.Length1 == shape.total
    ensures forall b, c :: 0 <= b < |rows| && 0 <= c < shape.total ==>
              inputIds[b, c] == IdAt(rows[b], shape, NoisyValid(rows[b].response, block, tail), tail, ids, c)
    ensures forall b, c :: 0 <= b < |rows| && 0 <= c < shape.total ==> targets[b, c] == TargetAt(rows[b], shape, ids, c)
    ensures forall b, c :: 0 <= b < |rows| && 0 <= c < shape.total ==> scores[b, c] == ScoreAt(rows[b], c)
  {
    var n := |rows|;
    shape := ShapeOf(rows, block, round, tail);
    ShapeFits(rows, block, round, tail);
    inputIds := new int[n, shape.total]((_, _) => ids.pad);
    targets := new int[n, shape.total]((_, _) => ids.pad);
    scores := new real[n, shape.total]((_, _) => 0.0);
    for b := 0 to n
      invariant forall x, c :: b <= x < n && 0 <= c < shape.total ==>
                  inputIds[x, c] == ids.pad && targets[x, c] == ids.pad && scores[x, c] == 0.0
      invariant forall x, c :: 0 <= x < b && 0 <= c < shape.total ==>
                  inputIds[x, c] == IdAt(rows[x], shape, NoisyValid(rows[x].response, block, tail), tail, ids, c)
      invariant forall x, c :: 0 <= x < b && 0 <= c < shape.total ==> targets[x, c] == TargetAt(rows[x], shape, ids, c)
      invariant forall x, c :: 0 <= x < b && 0 <= c < shape.total ==> scores[x, c] == ScoreAt(rows[x], c)
    {
      var valid := NoisyValid(rows[b].response, block, tail);
      FillIds(inputIds, b, rows[b], shape, valid, tail, ids);
      FillTargets(targets, b, rows[b], shape, ids);
      FillScores(scores, b, rows[b]);
    }
  }

  // ---------------------------------------------------------------- the whole builder

  datatype Problem = LengthTooLong | MaskShape | SeveralSpans | EosMissing

  datatype Built = Built(shape: Shape, rows: seq<Row>, inputIds: array2<int>, targets: array2<int>,
    scores: array2<real>)

  datatype Result<T> = Ok(value: T) | Err(problem: Problem)

  /** The row a sample becomes. */
  function RowOf(s: Sample): Row
    requires |s.generated| == |s.tokens| && ResponseLength(ScoreMask(s), s.length) >= 0
  {
    Row(s.tokens, Start(ScoreMask(s)), ResponseLength(ScoreMask(s), s.length), CleanLength(ScoreMask(s), s.length))
  }

  /** The row spelled out: where its scored tokens begin and end; nothing scored means an empty response and the
      whole input as the clean part. */
  ghost predicate RowIs(s: Sample, r: Row)
    requires |s.generated| == |s.tokens|
  {
    r.tokens == s.tokens &&
    if NoneSet(ScoreMask(s)) then r.start == 0 && r.response == 0 && r.clean == s.length
    else FirstSet(ScoreMask(s), r.start) && r.clean > 0 && LastSet(ScoreMask(s), r.clean - 1) &&
         r.start + r.response == r.clean
  }

  lemma RowOfIs(s: Sample)
    requires |s.generated| == |s.tokens| && ResponseLength(ScoreMask(s), s.length) >= 0
    ensures RowIs(s, RowOf(s))
  {
    EndsAreEnds(ScoreMask(s));
  }

  ghost predicate Fits(s: Sample)
  {
    s.length <= |s.tokens| && |s.generated| == |s.tokens| && Interval(ScoreMask(s))
  }

  /** The rows the builder derives for an accepted batch. */
  ghost predicate DerivedFrom(samples: seq<Sample>, rows: seq<Row>)
  {
    |rows| == |samples| && forall b :: 0 <= b < |samples| ==>
      Fits(samples[b]) && ResponseLength(ScoreMask(samples[b]), samples[b].length) >= 0 &&
        rows[b] == RowOf(samples[b]) && Placed(rows[b])
  }

  lemma RowPlaced(s: Sample)
    requires Fits(s)
    ensures ResponseLength(ScoreMask(s), s.length) >= 0
    ensures Placed(RowOf(s))
  {
    SpanIsMask(ScoreMask(s), s.length);
  }

  /** The problem reported for a batch, if any: the checks come in this order. */
  ghost function FirstProblem(samples: seq<Sample>, tail: Tail, eosGiven: bool): Result<()>
  {
    if exists b :: 0 <= b < |samples| && samples[b].length > |samples[b].tokens| then Err(LengthTooLong)
    else if exists b :: 0 <= b < |samples| && |samples[b].generated| != |samples[b].tokens| then Err(MaskShape)
    else if exists b :: 0 <= b < |samples| && |samples[b].generated| == |samples[b].tokens| &&
                        !Interval(ScoreMask(samples[b])) then Err(SeveralSpans)
    else if tail == EosTail && !eosGiven then Err(EosMissing)
    else Ok(())
  }

  /** Clean lengths, starts and response lengths of accepted samples, in that order. */
  method DeriveRows(samples: seq<Sample>, masks: seq<seq<bool>>) returns (rows: seq<Row>)
    requires |masks| == |samples| && forall b :: 0 <= b < |samples| ==>
              Fits(samples[b]) && masks[b] == ScoreMask(samples[b])
    ensures DerivedFrom(samples, rows)
  {
    var lengths := seq(|samples|, b requires 0 <= b < |samples| => samples[b].length);
    assert forall b :: 0 <= b < |samples| ==> Fits(samples[b]);
    forall b | 0 <= b < |samples|
      ensures ResponseLength(ScoreMask(samples[b]), samples[b].length) >= 0 && Placed(RowOf(samples[b]))
    {
      RowPlaced(samples[b]);
    }
    var cleans := ScoringLengths(masks, lengths);
    var starts := CompletionStarts(masks);
    var responses := ResponseLengths(masks, lengths, starts, cleans);
    rows := [];
    for b := 0 to |samples|
      invariant |rows| == b && forall x :: 0 <= x < b ==> rows[x] == RowOf(samples[x])
    {
      rows := rows + [Row(samples[b].tokens, starts[b], responses[b], cleans[b])];
    }
  }

  /** The checks of the builder, in its order. */
  method CheckBatch(samples: seq<Sample>, tail: Tail, eosGiven: bool) returns (r: Result<()>)
    ensures r == FirstProblem(samples, tail, eosGiven)
    ensures r.Ok? ==> forall b :: 0 <= b < |samples| ==> Fits(samples[b])
  {
    if exists b :: 0 <= b < |samples| && samples[b].length > |samples[b].tokens| {
      return Err(LengthTooLong);
    }
    if exists b :: 0 <= b < |samples| && |samples[b].generated| != |samples[b].tokens| {
      return Err(MaskShape);
    }
    var masks := seq(|samples|, b requires 0 <= b < |samples| => ScoreMask(samples[b]));
    var contiguous := ValidateSingleCompletionSpan(masks);
    if !contiguous {
      ghost var b :| 0 <= b < |masks| && !Interval(masks[b]);
      assert masks[b] == ScoreMask(samples[b]);
      return Err(SeveralSpans);
    }
    assert forall b :: 0 <= b < |samples| ==> Interval(masks[b]) && Fits(samples[b]);
    if tail == EosTail && !eosGiven {
      return Err(EosMissing);
    }
    r := Ok(());
  }

  lemma DerivedRowsAre(samples: seq<Sample>, rows: seq<Row>)
    requires DerivedFrom(samples, rows)
    ensures forall b :: 0 <= b < |samples| ==> RowIs(samples[b], rows[b])
  {
    forall b | 0 <= b < |samples|
      ensures RowIs(samples[b], rows[b])
    {
      RowOfIs(samples[b]);
    }
  }

  /** `build_fully_masked_completion_batch`; a block or rounding of 0 stands for "not set". */
  method BuildFullyMasked(samples: seq<Sample>, block: nat, round: nat, tail: Tail, ids: Ids, eosGiven: bool)
    returns (r: Result<Built>)
    ensures r.Ok? <==> FirstProblem(samples, tail, eosGiven).Ok?
    ensures r.Err? ==> FirstProblem(samples, tail, eosGiven) == Err(r.problem)
    ensures r.Ok? ==> DerivedFrom(samples, r.value.rows) && IsBuilt(r.value, block, round, tail, ids)
    ensures r.Ok? ==> forall b :: 0 <= b < |samples| ==> RowIs(samples[b], r.value.rows[b])
  {
    var checked := CheckBatch(samples, tail, eosGiven);
    if checked.Err? {
      return Err(checked.problem);
    }
    var masks := seq(|samples|, b requires 0 <= b < |samples| => ScoreMask(samples[b]));
    var rows := DeriveRows(samples, masks);
    DerivedRowsAre(samples, rows);
    var shape, inputIds, targets, scores := BuildCompletionOnly(rows, block, round, tail, ids);
    r := Ok(Built(shape, rows, inputIds, targets, scores));
  }

  ghost predicate IsBuilt(l: Built, block: nat, round: nat, tail: Tail, ids: Ids)
    reads l.inputIds, l.targets, l.scores
    requires forall b :: 0 <= b < |l.rows| ==> Placed(l.rows[b])
  {
    && IsShape(l.rows, block, round, tail, l.shape)
    && CellsFit(l.rows, l.shape, block, tail, ids, l.inputIds, l.targets, l.scores)
  }
}
