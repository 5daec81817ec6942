/** Complete traces (`validate_complete_trace`) and their replay, one transition per reveal level. */
module TraceReplay {
  import opened Wrappers

  import opened Arithmetic
  import opened JointMass
  import opened ConfidenceTransition

  datatype Verdict = Complete | Truncated | UnresolvedMask | NoProgress

  /** Noisy-side response length, target ids and reveal levels of one row. */
  datatype Row = Row(length: nat, targets: seq<nat>, levels: seq<int>)

  ghost predicate Recorded(row: Row)
  {
    row.length <= |row.targets| && row.length <= |row.levels|
  }

  /** `set(levels) == set(range(max + 1))` */
  ghost predicate Gapless(levels: seq<int>)
  {
    && (forall i :: 0 <= i < |levels| ==> levels[i] >= 0)
    && (forall i, l :: 0 <= i < |levels| && 0 <= l <= levels[i] ==> l in levels)
  }

  ghost predicate BlockComplete(row: Row, size: nat, mask: nat, start: nat)
    requires Recorded(row) && start + size <= row.length
  {
    mask !in row.targets[start..start + size] && Gapless(row.levels[start..start + size])
  }

  ghost predicate RowComplete(row: Row, size: nat, mask: nat)
    requires Recorded(row) && size > 0
  {
    && row.length % size == 0
    && forall c: nat :: c < row.length / size ==>
         (BlockFits(row.length, size, c); BlockComplete(row, size, mask, c * size))
  }

  lemma BlockFits(length: nat, size: nat, c: nat)
    requires size > 0 && c < length / size
    ensures c * size + size <= length
  {
    assert (c + 1) * size <= (length / size) * size <= length;
  }

  function MaxOf(s: seq<int>): (m: int)
    requires s != []
    ensures m in s && forall i :: 0 <= i < |s| ==> s[i] <= m
  {
    if |s| == 1 then s[0]
    else
      var m := MaxOf(s[1..]);
      assert forall i :: 0 < i < |s| ==> s[i] == s[1..][i - 1];
      if s[0] > m then s[0] else m
  }

  function Values(s: seq<int>): set<int>
  {
    set x | x in s
  }

  function Range(n: nat): (r: set<int>)
    ensures forall l :: l in r <==> 0 <= l < n
    ensures |r| == n
  {
    if n == 0 then {} else Range(n - 1) + {n - 1}
  }

  /** The code's test: the levels, as a set, are all of 0 to the largest. */
  predicate Progresses(levels: seq<int>)
    requires levels != []
  {
    MaxOf(levels) >= 0 && Values(levels) == Range(MaxOf(levels) + 1)
  }

  /** The code's comparison of two sets says that no level below the last one is missing. */
  lemma RangeMeansGapless(levels: seq<int>)
    requires levels != []
    ensures Progresses(levels) <==> Gapless(levels)
  {
    if Progresses(levels) {
      forall i | 0 <= i < |levels|
        ensures levels[i] >= 0
      {
        assert levels[i] in Values(levels);
      }
      forall i, l | 0 <= i < |levels| && 0 <= l <= levels[i]
        ensures l in levels
      {
        assert l in Range(MaxOf(levels) + 1);
      }
    }
    if Gapless(levels) {
      GaplessValues(levels);
    }
  }

  lemma GaplessValues(levels: seq<int>)
    requires levels != [] && Gapless(levels)
    ensures MaxOf(levels) >= 0 && Values(levels) == Range(MaxOf(levels) + 1)
  {
    var top :| 0 <= top < |levels| && levels[top] == MaxOf(levels);
    forall l | l in Range(MaxOf(levels) + 1)
      ensures l in Values(levels)
    {
      assert 0 <= l <= levels[top];
    }
  }

  method CheckBlock(row: Row, size: nat, mask: nat, start: nat) returns (v: Verdict)
    requires Recorded(row) && size > 0 && start + size <= row.length
    ensures v == Complete <==> BlockComplete(row, size, mask, start)
    ensures v != Truncated
    ensures v == UnresolvedMask <==> mask in row.targets[start..start + size]
  {
    var levels := row.levels[start..start + size];
    RangeMeansGapless(levels);
    if mask in row.targets[start..start + size] {
      v := UnresolvedMask;
    } else if !Progresses(levels) {
      v := NoProgress;
    } else {
      v := Complete;
    }
  }

  /** Block c of the row is the first bad one, and v says why: a MASK left in it, or else a level without progress. */
  ghost predicate FirstBadBlock(row: Row, size: nat, mask: nat, c: nat, v: Verdict)
    requires Recorded(row)
  {
    && c * size + size <= row.length && !BlockComplete(row, size, mask, c * size)
    && (forall b: nat :: b < c ==> b * size + size <= row.length && BlockComplete(row, size, mask, b * size))
    && v == if mask in row.targets[c * size..c * size + size] then UnresolvedMask else NoProgress
  }

  /** What is wrong with a row: first its length, then its first bad block. */
  ghost predicate Complaint(row: Row, size: nat, mask: nat, v: Verdict)
    requires Recorded(row) && size > 0
  {
    if row.length % size != 0 then v == Truncated else exists c: nat :: FirstBadBlock(row, size, mask, c, v)
  }

  /** The first complaint about a row, in the order of the code. */
  method CheckRow(row: Row, size: nat, mask: nat) returns (v: Verdict)
    requires Recorded(row) && size > 0
    ensures v == Complete <==> RowComplete(row, size, mask)
    ensures v != Complete ==> Complaint(row, size, mask, v)
  {
    if row.length % size != 0 {
      return Truncated;
    }
    var start := 0;
    ghost var c := 0;
    while start < row.length
      invariant start == c * size && c <= row.length / size
      invariant forall b: nat :: b < c ==> (BlockFits(row.length, size, b); BlockComplete(row, size, mask, b * size))
      decreases row.length - start
    {
      NextBlock(row.length, size, c);
      BlockFits(row.length, size, c);
      v := CheckBlock(row, size, mask, start);
      if v != Complete {
        assert FirstBadBlock(row, size, mask, c, v) by {
          forall b: nat | b < c
            ensures b * size + size <= row.length && BlockComplete(row, size, mask, b * size)
          {
            BlockFits(row.length, size, b);
          }
        }
        return;
      }
      assert (c + 1) * size == start + size;
      start, c := start + size, c + 1;
    }
    AllBlocks(row.length, size, c);
    return Complete;
  }

  lemma NextBlock(length: nat, size: nat, c: nat)
    requires size > 0 && length % size == 0 && c * size < length
    ensures c < length / size
  {
    assert length == (length / size) * size;
    MulLess(c, length / size, size);
  }

  lemma AllBlocks(length: nat, size: nat, c: nat)
    requires size > 0 && length % size == 0 && c * size >= length && c <= length / size
    ensures c == length / size
  {
    if c < length / size {
      BlockFits(length, size, c);
    }
  }

  /** `validate_complete_trace`: accept every row, or stop at the first bad one. */
  method ValidateCompleteTrace(rows: seq<Row>, size: nat, mask: nat) returns (v: Verdict)
    requires size > 0 && forall r :: 0 <= r < |rows| ==> Recorded(rows[r])
    ensures v == Complete <==> forall r :: 0 <= r < |rows| ==> RowComplete(rows[r], size, mask)
    ensures v != Complete ==> exists r: nat :: FirstBadRow(rows, size, mask, r, v)
  {
    for r := 0 to |rows|
      invariant forall k :: 0 <= k < r ==> RowComplete(rows[k], size, mask)
    {
      v := CheckRow(rows[r], size, mask);
      if v != Complete {
        assert FirstBadRow(rows, size, mask, r, v);
        return;
      }
    }
    v := Complete;
  }

  /** Row r is the first bad one, and v is the complaint about it. */
  ghost predicate FirstBadRow(rows: seq<Row>, size: nat, mask: nat, r: nat, v: Verdict)
    requires size > 0 && forall r :: 0 <= r < |rows| ==> Recorded(rows[r])
  {
    r < |rows| && Complaint(rows[r], size, mask, v) && forall k :: 0 <= k < r ==> RowComplete(rows[k], size, mask)
  }

  // ---------------------------------------------------------------- replay of one block

  function MaskedAt(levels: seq<int>, l: int): seq<bool>
  {
    seq(|levels|, i requires 0 <= i < |levels| => levels[i] >= l)
  }

  function SelectedAt(levels: seq<int>, l: int): seq<bool>
  {
    seq(|levels|, i requires 0 <= i < |levels| => levels[i] == l)
  }

  /** Number of replayed steps of a block. */
  function Depth(levels: seq<int>): int
    requires levels != []
  {
    MaxOf(levels) + 1
  }

  /** Distinct values of a sequence are no more than its entries. */
  lemma {:induction false} ValuesAreFew(s: seq<int>)
    ensures |Values(s)| <= |s|
  {
    if s != [] {
      ValuesAreFew(s[1..]);
      assert Values(s) == {s[0]} + Values(s[1..]);
    }
  }

  /** Replaying an accepted block: every step reveals something, every position is revealed at
      exactly one step, the canvas ends fully revealed, and the steps fit in the block size. */
  lemma ReplayOfCompleteBlock(levels: seq<int>)
    requires levels != [] && Gapless(levels)
    ensures forall l :: 0 <= l < Depth(levels) ==> true in SelectedAt(levels, l)
    ensures forall i :: 0 <= i < |levels| ==> 0 <= levels[i] < Depth(levels)
    ensures forall i, l :: 0 <= i < |levels| ==> (SelectedAt(levels, l)[i] <==> l == levels[i])
    ensures forall l, next, i :: 0 <= i < |levels| && next == l + 1 ==>
              (MaskedAt(levels, next)[i] <==> MaskedAt(levels, l)[i] && !SelectedAt(levels, l)[i])
    ensures true !in MaskedAt(levels, Depth(levels)) && false !in MaskedAt(levels, 0)
    ensures 1 <= Depth(levels) <= |levels|
  {
    var top :| 0 <= top < |levels| && levels[top] == MaxOf(levels);
    forall l | 0 <= l < Depth(levels)
      ensures true in SelectedAt(levels, l)
    {
      assert l <= levels[top] && l in levels;
      var i :| 0 <= i < |levels| && levels[i] == l;
      assert SelectedAt(levels, l)[i];
    }
    ValuesAreFew(levels);
    RangeMeansGapless(levels);
  }

  /** The converse: a block whose levels are non-negative and whose every step up to the last one
      reveals something is accepted by the level check. */
  lemma ProgressMeansGapless(levels: seq<int>)
    requires levels != [] && forall i :: 0 <= i < |levels| ==> levels[i] >= 0
    requires forall l :: 0 <= l < Depth(levels) ==> true in SelectedAt(levels, l)
    ensures Gapless(levels)
  {
    forall i, l | 0 <= i < |levels| && 0 <= l <= levels[i]
      ensures l in levels
    {
      assert l < Depth(levels) && true in SelectedAt(levels, l);
      var k :| 0 <= k < |levels| && SelectedAt(levels, l)[k];
      assert levels[k] == l;
    }
  }

  /** The query `on_policy_correction` derives for one block at one level: still masked is what is revealed at this
      level or later, selected what is revealed at it. */
  ghost predicate Replays(q: Query, p: Rows, vocab: nat, targets: seq<nat>, levels: seq<int>, l: int,
      threshold: real, mask: nat)
  {
    && q.d.p == p && q.d.vocab == vocab && q.d.threshold == threshold && q.d.maskToken == Some(mask)
    && q.targets == targets && |q.d.masked| == |q.selected| == |levels|
    && (forall i :: 0 <= i < |levels| ==> (q.d.masked[i] <==> levels[i] >= l))
    && (forall i :: 0 <= i < |levels| ==> (q.selected[i] <==> levels[i] == l))
  }

  /** Every step of an accepted trace poses a query the closed form answers correctly, whatever the
      model's distributions at that step. */
  lemma ReplayLikelihoodIsExact(q: Query, p: Rows, vocab: nat, targets: seq<nat>, levels: seq<int>, l: int,
      threshold: real, mask: nat)
    requires levels != [] && Gapless(levels) && mask !in targets && 0 <= l < Depth(levels)
    requires Canvas(p, vocab) && |p| == |targets| == |levels| && threshold > 0.0
    requires forall i :: 0 <= i < |targets| ==> targets[i] < vocab
    requires Replays(q, p, vocab, targets, levels, l, threshold, mask)
    ensures WellPosed(q) && Revealing(q) && Joint(q) == Probability(p, vocab, Preimage(q))
  {
    ReplayOfCompleteBlock(levels);
    assert true in SelectedAt(levels, l);
    var i: nat :| i < |levels| && SelectedAt(levels, l)[i];
    assert q.selected[i];
    ClosedFormIsTransitionProbability(q);
  }
}
