/** Leftmost reveal: one scoring row per response token (nemo_rl/algorithms/just_grpo_logprobs.py,
    lines 40-208 and 309-336), and its agreement with the block views at width 1. */
module LeftmostReveal {
  import opened Arithmetic
  import opened CompletionSpan

  datatype Schedule = Sparse | Window(count: nat)

  /** A scoring row: what the network sees, the token it is scored at, and whether it counts. */
  datatype RevealRow = RevealRow(ids: seq<int>, sample: nat, position: nat, valid: bool)

  ghost predicate Accepted(s: Sample, schedule: Schedule)
  {
    |s.generated| == |s.tokens| && (schedule.Window? ==> |s.tokens| > 0)
  }

  function Clamp(x: int, size: nat): (p: nat)
    requires size > 0
    ensures p < size && (p == x <==> 0 <= x < size)
  {
    if x < 0 then 0 else if x >= size then size - 1 else x
  }

  /** First column of the window: the first scored token, or the last column of an unscored row. */
  function WindowStart(s: Sample): nat
    requires |s.generated| == |s.tokens| && |s.tokens| > 0
  {
    var ps := Positions(ScoreMask(s));
    if ps != [] then ps[0] else Clamp(s.length - 1, |s.tokens|)
  }

  function Consecutive(start: nat, count: nat): (r: seq<nat>)
    ensures |r| == count && forall j :: 0 <= j < count ==> r[j] == start + j
  {
    if count == 0 then [] else Consecutive(start, count - 1) + [start + (count - 1)]
  }

  function RawPositions(s: Sample, schedule: Schedule): seq<nat>
    requires Accepted(s, schedule)
  {
    if schedule.Sparse? then Positions(ScoreMask(s))
    else Consecutive(WindowStart(s), schedule.count)
  }

  /** The scored tokens from `position` on replaced by MASK. */
  function Hidden(s: Sample, position: nat, mask: int): seq<int>
    requires |s.generated| == |s.tokens|
  {
    seq(|s.tokens|, i requires 0 <= i < |s.tokens| => if ScoreMask(s)[i] && i >= position then mask else s.tokens[i])
  }

  /** What a row for `position` shows: every token that is not scored or lies before it, and MASK elsewhere. */
  ghost predicate Hides(s: Sample, position: nat, mask: int, ids: seq<int>)
    requires |s.generated| == |s.tokens|
  {
    && |ids| == |s.tokens|
    && (forall i :: 0 <= i < |ids| && (i < position || !ScoreMask(s)[i]) ==> ids[i] == s.tokens[i])
    && (forall i :: 0 <= i < |ids| && i >= position && ScoreMask(s)[i] ==> ids[i] == mask)
  }

  lemma HiddenHides(s: Sample, position: nat, mask: int, ids: seq<int>)
    requires |s.generated| == |s.tokens|
    ensures Hides(s, position, mask, ids) <==> ids == Hidden(s, position, mask)
  {
    if Hides(s, position, mask, ids) {
      assert ids == Hidden(s, position, mask);
    }
  }

  function RowFor(s: Sample, b: nat, raw: nat, mask: int): RevealRow
    requires |s.generated| == |s.tokens| && |s.tokens| > 0
  {
    var position := Clamp(raw, |s.tokens|);
    RevealRow(Hidden(s, position, mask), b, position, raw == position && ScoreMask(s)[position])
  }

  function RowsUpTo(s: Sample, b: nat, schedule: Schedule, mask: int, n: nat): (rows: seq<RevealRow>)
    requires Accepted(s, schedule) && n <= |RawPositions(s, schedule)|
    ensures |rows| == n
  {
    if n == 0 then []
    else
      PositionsAscend(ScoreMask(s));
      RowsUpTo(s, b, schedule, mask, n - 1) + [RowFor(s, b, RawPositions(s, schedule)[n - 1], mask)]
  }

  /** The lists before the n-th, one after the other. */
  function Flatten<T>(parts: seq<seq<T>>, n: nat): seq<T>
    requires n <= |parts|
  {
    if n == 0 then [] else Flatten(parts, n - 1) + parts[n - 1]
  }

  /** The rows of every sample. */
  function Parts(samples: seq<Sample>, schedule: Schedule, mask: int): (parts: seq<seq<RevealRow>>)
    requires forall b :: 0 <= b < |samples| ==> Accepted(samples[b], schedule)
    ensures |parts| == |samples| && forall b :: 0 <= b < |samples| ==>
              parts[b] == OwnRows(samples[b], b, schedule, mask)
  {
    seq(|samples|, b requires 0 <= b < |samples| => OwnRows(samples[b], b, schedule, mask))
  }

  function AllRows(samples: seq<Sample>, schedule: Schedule, mask: int): seq<RevealRow>
    requires forall b :: 0 <= b < |samples| ==> Accepted(samples[b], schedule)
  {
    Flatten(Parts(samples, schedule, mask), |samples|)
  }

  /** The inner loop: one row per raw position of a sample. */
  method AppendRows(rows: seq<RevealRow>, s: Sample, b: nat, schedule: Schedule, mask: int, raws: seq<nat>)
    returns (longer: seq<RevealRow>)
    requires Accepted(s, schedule) && raws == RawPositions(s, schedule)
    ensures longer == rows + OwnRows(s, b, schedule, mask)
  {
    var m := ScoreMask(s);
    PositionsAscend(m);
    longer := rows;
    for j := 0 to |raws|
      invariant longer == rows + RowsUpTo(s, b, schedule, mask, j)
    {
      var position := Clamp(raws[j], |s.tokens|);
      var valid := raws[j] == position && s.kept && m[position];
      var ids := seq(|s.tokens|, i requires 0 <= i < |s.tokens| => if m[i] && i >= position then mask else s.tokens[i]);
      assert ids == Hidden(s, position, mask);
      longer := longer + [RevealRow(ids, b, position, valid)];
    }
  }

  method BuildLeftmostReveal(samples: seq<Sample>, schedule: Schedule, mask: int) returns (rows: seq<RevealRow>)
    requires forall b :: 0 <= b < |samples| ==> Accepted(samples[b], schedule)
    ensures rows == AllRows(samples, schedule, mask) && BatchOf(samples, schedule, mask, rows)
  {
    rows := BuildRows(samples, schedule, mask);
    AllRowsAreBatch(samples, schedule, mask);
  }

  method BuildRows(samples: seq<Sample>, schedule: Schedule, mask: int) returns (rows: seq<RevealRow>)
    requires forall b :: 0 <= b < |samples| ==> Accepted(samples[b], schedule)
    ensures rows == AllRows(samples, schedule, mask)
  {
    rows := [];
    ghost var parts := Parts(samples, schedule, mask);
    for b := 0 to |samples|
      invariant rows == Flatten(parts, b)
    {
      var s := samples[b];
      var raws := Positions(ScoreMask(s));
      if schedule.Window? {
        var start := if |raws| > 0 then raws[0] else Clamp(s.length - 1, |s.tokens|);
        raws := Consecutive(start, schedule.count);
      }
      rows := AppendRows(rows, s, b, schedule, mask, raws);
    }
  }

  // ---------------------------------------------------------------- which tokens have a row

  /** Tokens the schedule reaches: the scored ones, with a window those less than `count` behind the first. */
  ghost predicate Reached(s: Sample, schedule: Schedule, p: nat)
    requires Accepted(s, schedule)
  {
    p < |s.tokens| && ScoreMask(s)[p]
    && (schedule.Window? ==> forall first: nat :: FirstSet(ScoreMask(s), first) ==> p < first + schedule.count)
  }

  lemma WindowReaches(s: Sample, count: nat, p: nat)
    requires Accepted(s, Window(count)) && p < |s.tokens| && ScoreMask(s)[p]
    ensures FirstSet(ScoreMask(s), WindowStart(s)) && WindowStart(s) <= p
    ensures Reached(s, Window(count), p) <==> p < WindowStart(s) + count
  {
    EndsAreEnds(ScoreMask(s));
  }

  /** For an interval response no longer than the window, the window reaches every scored token, as the sparse
      schedule does. */
  lemma WindowIsSparse(s: Sample, count: nat, p: nat)
    requires Accepted(s, Window(count)) && Interval(ScoreMask(s))
    requires |(set i: int | 0 <= i < |s.tokens| && ScoreMask(s)[i])| <= count
    ensures Reached(s, Window(count), p) <==> p < |s.tokens| && ScoreMask(s)[p]
    ensures Reached(s, Sparse, p) <==> p < |s.tokens| && ScoreMask(s)[p]
  {
    var m := ScoreMask(s);
    if p < |s.tokens| && m[p] {
      WindowReaches(s, count, p);
      var a := EveryPosition(m, p);
      IntervalIsTight(m, a);
      PositionsAscend(m);
      ListedInSet(Positions(m), set i: int | 0 <= i < |s.tokens| && m[i]);
    }
  }

  lemma {:induction false} ListedInSet(ps: seq<nat>, s: set<int>)
    requires forall a :: 0 <= a < |ps| ==> ps[a] in s
    requires forall a, b :: 0 <= a < b < |ps| ==> ps[a] < ps[b]
    ensures |ps| <= |s|
  {
    if ps != [] {
      var n := |ps| - 1;
      ListedInSet(ps[..n], s - {ps[n] as int});
    }
  }

  /** First column of the window: the first scored one; in a row without any, the last column of the input. */
  ghost predicate StartsWindow(s: Sample, start: nat)
    requires |s.generated| == |s.tokens|
  {
    if NoneSet(ScoreMask(s)) then start == (if s.length == 0 then 0 else Least(s.length, |s.tokens|) - 1)
    else FirstSet(ScoreMask(s), start)
  }

  function Least(a: nat, b: nat): nat
  {
    if a < b then a else b
  }

  /** The columns rows are made for: every scored one in order, or `count` successive ones of a window. */
  ghost predicate Schedules(s: Sample, schedule: Schedule, raws: seq<nat>)
    requires |s.generated| == |s.tokens|
  {
    match schedule
    case Sparse =>
      && (forall p: nat :: p in raws <==> p < |s.tokens| && ScoreMask(s)[p])
      && (forall i, j :: 0 <= i < j < |raws| ==> raws[i] < raws[j])
    case Window(count) =>
      && |raws| == count
      && exists start: nat :: StartsWindow(s, start) && forall j :: 0 <= j < count ==> raws[j] == start + j
  }

  /** The row made for column `raw`: for its token if there is one, and counting only if that is scored. */
  ghost predicate MadeFor(s: Sample, b: nat, raw: nat, mask: int, r: RevealRow)
    requires |s.generated| == |s.tokens|
  {
    && r.sample == b && r.position == (if raw < |s.tokens| then raw else |s.tokens| - 1)
    && Hides(s, r.position, mask, r.ids)
    && (r.valid <==> raw < |s.tokens| && ScoreMask(s)[raw])
  }

  /** The rows of one sample. */
  ghost predicate SampleRows(s: Sample, b: nat, schedule: Schedule, mask: int, rows: seq<RevealRow>)
    requires Accepted(s, schedule)
  {
    exists raws: seq<nat> :: Schedules(s, schedule, raws) && |raws| == |rows| &&
      forall j :: 0 <= j < |rows| ==> MadeFor(s, b, raws[j], mask, rows[j])
  }

  lemma RawsAreScheduled(s: Sample, schedule: Schedule)
    requires Accepted(s, schedule)
    ensures Schedules(s, schedule, RawPositions(s, schedule))
  {
    var m, raws := ScoreMask(s), RawPositions(s, schedule);
    EndsAreEnds(m);
    if schedule.Sparse? {
      PositionsAscend(m);
      forall p: nat | p < |s.tokens| && m[p]
        ensures p in raws
      {
        var a := EveryPosition(m, p);
      }
    } else {
      assert StartsWindow(s, WindowStart(s));
    }
  }

  lemma OwnRowsAreScheduled(s: Sample, b: nat, schedule: Schedule, mask: int)
    requires Accepted(s, schedule)
    ensures SampleRows(s, b, schedule, mask, OwnRows(s, b, schedule, mask))
  {
    var raws := RawPositions(s, schedule);
    RawsAreScheduled(s, schedule);
    RowsAre(s, b, schedule, mask, |raws|);
    forall j | 0 <= j < |raws|
      ensures MadeFor(s, b, raws[j], mask, RowFor(s, b, raws[j], mask))
    {
      var position := Clamp(raws[j], |s.tokens|);
      HiddenHides(s, position, mask, Hidden(s, position, mask));
    }
  }

  /** The rows of a batch: those of its samples, one after the other. */
  ghost predicate BatchOf(samples: seq<Sample>, schedule: Schedule, mask: int, rows: seq<RevealRow>)
    requires forall b :: 0 <= b < |samples| ==> Accepted(samples[b], schedule)
  {
    exists parts: seq<seq<RevealRow>> :: |parts| == |samples| && rows == Flatten(parts, |parts|) &&
      forall b :: 0 <= b < |samples| ==> SampleRows(samples[b], b, schedule, mask, parts[b])
  }

  lemma AllRowsAreBatch(samples: seq<Sample>, schedule: Schedule, mask: int)
    requires forall b :: 0 <= b < |samples| ==> Accepted(samples[b], schedule)
    ensures BatchOf(samples, schedule, mask, AllRows(samples, schedule, mask))
  {
    var parts := Parts(samples, schedule, mask);
    forall b | 0 <= b < |samples|
      ensures SampleRows(samples[b], b, schedule, mask, parts[b])
    {
      OwnRowsAreScheduled(samples[b], b, schedule, mask);
    }
  }

  lemma {:induction false} RowsAre(s: Sample, b: nat, schedule: Schedule, mask: int, n: nat)
    requires Accepted(s, schedule) && n <= |RawPositions(s, schedule)|
    ensures n > 0 ==> |s.tokens| > 0
    ensures forall j :: 0 <= j < n ==>
              RowsUpTo(s, b, schedule, mask, n)[j] == RowFor(s, b, RawPositions(s, schedule)[j], mask)
  {
    if n > 0 {
      RowsAre(s, b, schedule, mask, n - 1);
      PositionsAscend(ScoreMask(s));
    }
  }

  /** Raw positions ascend, and the scored ones among them inside the row are exactly those reached. */
  lemma RawPositionsReach(s: Sample, schedule: Schedule)
    requires Accepted(s, schedule)
    ensures var raws := RawPositions(s, schedule);
            && (forall i, j :: 0 <= i < j < |raws| ==> raws[i] < raws[j])
            && (forall j :: 0 <= j < |raws| && raws[j] < |s.tokens| && ScoreMask(s)[raws[j]] ==>
                 Reached(s, schedule, raws[j]))
  {
    PositionsAscend(ScoreMask(s));
    if schedule.Window? {
      forall p: nat | p < |s.tokens| && ScoreMask(s)[p]
        ensures Reached(s, schedule, p) <==> p < WindowStart(s) + schedule.count
      {
        WindowReaches(s, schedule.count, p);
      }
    }
  }

  function OwnRows(s: Sample, b: nat, schedule: Schedule, mask: int): seq<RevealRow>
    requires Accepted(s, schedule)
  {
    RowsUpTo(s, b, schedule, mask, |RawPositions(s, schedule)|)
  }

  /** A row of a sample: it hides its token and what follows, and counts only if its token is reached. */
  ghost predicate OwnRow(s: Sample, b: nat, schedule: Schedule, mask: int, r: RevealRow)
    requires Accepted(s, schedule)
  {
    && r.sample == b && r.position < |s.tokens| && Hides(s, r.position, mask, r.ids)
    && (r.valid ==> Reached(s, schedule, r.position))
  }

  lemma OwnRowsFine(s: Sample, b: nat, schedule: Schedule, mask: int)
    requires Accepted(s, schedule)
    ensures var rows := OwnRows(s, b, schedule, mask);
            && OneRowPerToken(rows)
            && forall j :: 0 <= j < |rows| ==> OwnRow(s, b, schedule, mask, rows[j])
  {
    var raws, rows := RawPositions(s, schedule), OwnRows(s, b, schedule, mask);
    RowsAre(s, b, schedule, mask, |raws|);
    RawPositionsReach(s, schedule);
    forall j | 0 <= j < |rows|
      ensures Hides(s, rows[j].position, mask, rows[j].ids)
    {
      HiddenHides(s, rows[j].position, mask, rows[j].ids);
    }
  }

  /** Every reached token has a valid row, and its row is the one that hides it and what follows. */
  lemma ReachedHasRow(s: Sample, b: nat, schedule: Schedule, mask: int, p: nat) returns (j: nat)
    requires Accepted(s, schedule) && Reached(s, schedule, p)
    ensures j < |OwnRows(s, b, schedule, mask)|
    ensures OwnRows(s, b, schedule, mask)[j] == RevealRow(Hidden(s, p, mask), b, p, true)
  {
    if schedule.Sparse? {
      j := EveryPosition(ScoreMask(s), p);
    } else {
      WindowReaches(s, schedule.count, p);
      j := p - WindowStart(s);
    }
    RowsAre(s, b, schedule, mask, |RawPositions(s, schedule)|);
  }

  lemma OwnRowCount(s: Sample, b: nat, schedule: Schedule, mask: int)
    requires Accepted(s, schedule)
    ensures |OwnRows(s, b, schedule, mask)| == if schedule.Window? then schedule.count else |Positions(ScoreMask(s))|
  {
  }

  function Product(n: int, count: int): int
  {
    n * count
  }

  lemma {:induction false} EqualParts<T>(parts: seq<seq<T>>, count: nat, n: nat)
    requires n <= |parts| && forall b :: 0 <= b < |parts| ==> |parts[b]| == count
    ensures |Flatten(parts, n)| == Product(n, count)
  {
    if n > 0 {
      EqualParts(parts, count, n - 1);
      MulStep(n, count);
    }
  }

  /** The fixed window emits the same number of rows for every sample, whatever its response. */
  lemma WindowRowCount(samples: seq<Sample>, count: nat, mask: int)
    requires forall b :: 0 <= b < |samples| ==> Accepted(samples[b], Window(count))
    ensures |AllRows(samples, Window(count), mask)| == |samples| * count
  {
    forall b | 0 <= b < |samples|
      ensures |OwnRows(samples[b], b, Window(count), mask)| == count
    {
      OwnRowCount(samples[b], b, Window(count), mask);
    }
    EqualParts(Parts(samples, Window(count), mask), count, |samples|);
  }

  // ---------------------------------------------------------------- back to [B, S]

  /** No token has two valid rows. */
  ghost predicate OneRowPerToken(rows: seq<RevealRow>)
  {
    forall i, j :: 0 <= i < j < |rows| && rows[i].valid && rows[j].valid && rows[i].sample == rows[j].sample ==>
      rows[i].position != rows[j].position
  }

  ghost predicate NoRow(rows: seq<RevealRow>, n: nat, b: nat, p: nat)
    requires n <= |rows|
  {
    forall r :: 0 <= r < n && rows[r].valid ==> rows[r].sample != b || rows[r].position != p
  }

  /** Valid rows assign their score to their token. */
  method ScatterLeftmost(scores: seq<real>, rows: seq<RevealRow>, samples: nat, seqLen: nat)
    returns (output: array2<real>)
    requires |scores| == |rows|
    requires forall r :: 0 <= r < |rows| && rows[r].valid ==> rows[r].sample < samples && rows[r].position < seqLen
    requires OneRowPerToken(rows)
    ensures output.Length0 == samples && output.Length1 == seqLen
    ensures forall r :: 0 <= r < |rows| && rows[r].valid ==> output[rows[r].sample, rows[r].position] == scores[r]
    ensures forall b, p :: 0 <= b < samples && 0 <= p < seqLen && NoRow(rows, |rows|, b, p) ==> output[b, p] == 0.0
  {
    output := new real[samples, seqLen]((_, _) => 0.0);
    for r := 0 to |rows|
      invariant fresh(output)
      invariant forall x :: 0 <= x < r && rows[x].valid ==> output[rows[x].sample, rows[x].position] == scores[x]
      invariant forall b, p :: 0 <= b < samples && 0 <= p < seqLen && NoRow(rows, r, b, p) ==> output[b, p] == 0.0
    {
      if rows[r].valid {
        output[rows[r].sample, rows[r].position] := scores[r];
      }
    }
  }

  /** Every list holds rows of its own sample, at most one valid row per token. */
  ghost predicate BySample(parts: seq<seq<RevealRow>>)
  {
    forall b :: 0 <= b < |parts| ==>
      OneRowPerToken(parts[b]) && forall j :: 0 <= j < |parts[b]| ==> parts[b][j].sample == b
  }

  lemma {:induction false} FlattenOneRow(parts: seq<seq<RevealRow>>, n: nat)
    requires BySample(parts) && n <= |parts|
    ensures OneRowPerToken(Flatten(parts, n))
    ensures forall r :: 0 <= r < |Flatten(parts, n)| ==> Flatten(parts, n)[r].sample < n
    ensures forall r :: 0 <= r < |Flatten(parts, n)| ==> Flatten(parts, n)[r] in parts[Flatten(parts, n)[r].sample]
  {
    if n > 0 {
      FlattenOneRow(parts, n - 1);
    }
  }

  lemma {:induction false} InFlatten<T>(parts: seq<seq<T>>, n: nat, b: nat, x: T)
    requires b < n <= |parts| && x in parts[b]
    ensures x in Flatten(parts, n)
  {
    if b < n - 1 {
      InFlatten(parts, n - 1, b, x);
    }
  }

  /** The rows of a batch: each belongs to its sample, and valid rows are for different tokens. */
  lemma BatchRows(samples: seq<Sample>, schedule: Schedule, mask: int)
    requires forall b :: 0 <= b < |samples| ==> Accepted(samples[b], schedule)
    ensures var rows := AllRows(samples, schedule, mask);
            && OneRowPerToken(rows)
            && forall r :: 0 <= r < |rows| ==>
                 rows[r].sample < |samples| && OwnRow(samples[rows[r].sample], rows[r].sample, schedule, mask, rows[r])
  {
    var parts := Parts(samples, schedule, mask);
    forall b | 0 <= b < |samples|
      ensures OneRowPerToken(parts[b])
      ensures forall j :: 0 <= j < |parts[b]| ==> OwnRow(samples[b], b, schedule, mask, parts[b][j])
    {
      OwnRowsFine(samples[b], b, schedule, mask);
    }
    FlattenOneRow(parts, |samples|);
  }

  /** The row of a token. */
  function TokenRow(s: Sample, b: nat, mask: int, p: nat): RevealRow
    requires |s.generated| == |s.tokens|
  {
    RevealRow(Hidden(s, p, mask), b, p, true)
  }

  lemma OwnHasRow(s: Sample, b: nat, schedule: Schedule, mask: int, p: nat)
    requires Accepted(s, schedule) && Reached(s, schedule, p)
    ensures TokenRow(s, b, mask, p) in OwnRows(s, b, schedule, mask)
  {
    var j := ReachedHasRow(s, b, schedule, mask, p);
  }

  type Scorer = (nat, seq<int>, int) -> real

  /** Score every row of a batch with any network and scatter: each reached token gets the score of the
      row that hides exactly it and what follows, every other position 0. */
  method LeftmostLogprobs(samples: seq<Sample>, schedule: Schedule, mask: int, seqLen: nat, score: Scorer)
    returns (output: array2<real>)
    requires forall b :: 0 <= b < |samples| ==> Accepted(samples[b], schedule) && |samples[b].tokens| == seqLen
    ensures output.Length0 == |samples| && output.Length1 == seqLen
    ensures forall b, p :: 0 <= b < |samples| && 0 <= p < seqLen ==>
              if Reached(samples[b], schedule, p) then ScoredHidden(score, samples[b], b, p, mask, output[b, p])
              else output[b, p] == 0.0
  {
    output := ScoreRows(samples, schedule, mask, seqLen, score);
    forall b, p | 0 <= b < |samples| && 0 <= p < seqLen && Reached(samples[b], schedule, p)
      ensures ScoredHidden(score, samples[b], b, p, mask, output[b, p])
    {
      HiddenScored(score, samples[b], b, p, mask);
    }
  }

  /** The value is the network's score at column p for sample b when it is shown the row that hides p. */
  ghost predicate ScoredHidden(score: Scorer, s: Sample, b: nat, p: nat, mask: int, value: real)
    requires |s.generated| == |s.tokens|
  {
    exists ids :: Hides(s, p, mask, ids) && value == score(b, ids, p)
  }

  lemma HiddenScored(score: Scorer, s: Sample, b: nat, p: nat, mask: int)
    requires |s.generated| == |s.tokens|
    ensures Hides(s, p, mask, Hidden(s, p, mask)) && ScoredHidden(score, s, b, p, mask, score(b, Hidden(s, p, mask), p))
  {
    HiddenHides(s, p, mask, Hidden(s, p, mask));
    forall ids | Hides(s, p, mask, ids)
      ensures ids == Hidden(s, p, mask)
    {
      HiddenHides(s, p, mask, ids);
    }
  }

  method ScoreRows(samples: seq<Sample>, schedule: Schedule, mask: int, seqLen: nat, score: Scorer)
    returns (output: array2<real>)
    requires forall b :: 0 <= b < |samples| ==> Accepted(samples[b], schedule) && |samples[b].tokens| == seqLen
    ensures output.Length0 == |samples| && output.Length1 == seqLen
    ensures forall b, p :: 0 <= b < |samples| && 0 <= p < seqLen ==>
              output[b, p] == if Reached(samples[b], schedule, p) then score(b, Hidden(samples[b], p, mask), p) else 0.0
  {
    var rows := BuildLeftmostReveal(samples, schedule, mask);
    BatchRows(samples, schedule, mask);
    var scores := seq(|rows|, r requires 0 <= r < |rows| => score(rows[r].sample, rows[r].ids, rows[r].position));
    output := ScatterLeftmost(scores, rows, |samples|, seqLen);
    forall b: nat, p: nat | b < |samples| && p < seqLen
      ensures output[b, p] == if Reached(samples[b], schedule, p) then score(b, Hidden(samples[b], p, mask), p) else 0.0
    {
      if Reached(samples[b], schedule, p) {
        var r := ReachedRow(samples, schedule, mask, b, p);
        assert output[rows[r].sample, rows[r].position] == scores[r];
      } else {
        UnreachedHasNoRow(samples, schedule, mask, b, p);
      }
    }
  }

  lemma ReachedRow(samples: seq<Sample>, schedule: Schedule, mask: int, b: nat, p: nat) returns (r: nat)
    requires forall b :: 0 <= b < |samples| ==> Accepted(samples[b], schedule)
    requires b < |samples| && Reached(samples[b], schedule, p)
    ensures r < |AllRows(samples, schedule, mask)|
    ensures AllRows(samples, schedule, mask)[r] == TokenRow(samples[b], b, mask, p)
  {
    OwnHasRow(samples[b], b, schedule, mask, p);
    InFlatten(Parts(samples, schedule, mask), |samples|, b, TokenRow(samples[b], b, mask, p));
    r :| 0 <= r < |AllRows(samples, schedule, mask)|
         && AllRows(samples, schedule, mask)[r] == TokenRow(samples[b], b, mask, p);
  }

  lemma UnreachedHasNoRow(samples: seq<Sample>, schedule: Schedule, mask: int, b: nat, p: nat)
    requires forall b :: 0 <= b < |samples| ==> Accepted(samples[b], schedule)
    requires b < |samples| && !Reached(samples[b], schedule, p)
    ensures NoRow(AllRows(samples, schedule, mask), |AllRows(samples, schedule, mask)|, b, p)
  {
    BatchRows(samples, schedule, mask);
  }
}
