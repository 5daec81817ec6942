/** Block-wise evaluation of the transition law: the forward and backward passes of
    `_BlockConfidenceLogprob`, which visit the active blocks four at a time and leave every other
    entry at its initial value.
 */
module ConfidenceBlocks {
  import opened Wrappers

  import opened Arithmetic
  import opened JointMass
  import opened ConfidenceTransition
  import opened TransitionLaw

  const CHUNK: nat := 4

  /** Softmax rows of `[noisy | clean]` sequences and the noisy-side annotations of each row. */
  datatype Batch = Batch(
    p: seq<Rows>, vocab: nat, length: nat, noisy: nat,
    targets: seq<seq<nat>>, masked: seq<seq<bool>>, selected: seq<seq<bool>>,
    blockSize: nat, threshold: real, maskToken: Option<int>)

  ghost predicate Shaped(b: Batch)
  {
    && b.blockSize > 0 && b.noisy <= b.length && b.threshold > 0.0
    && |b.p| == |b.targets| == |b.masked| == |b.selected|
    && (forall r :: 0 <= r < |b.p| ==> |b.p[r]| == b.length && Canvas(b.p[r], b.vocab))
    && (forall r :: 0 <= r < |b.p| ==> |b.targets[r]| == |b.masked[r]| == |b.selected[r]| == b.noisy)
    && (forall r, i :: 0 <= r < |b.p| && 0 <= i < b.noisy ==> b.targets[r][i] < b.vocab)
  }

  function Blocks(b: Batch): nat
    requires b.blockSize > 0
  {
    b.noisy / b.blockSize
  }

  ghost predicate BlockAt(b: Batch, r: nat, c: nat)
  {
    Shaped(b) && r < |b.p| && c < Blocks(b) && b.noisy % b.blockSize == 0
  }

  lemma BlockInside(b: Batch, c: nat)
    requires b.blockSize > 0 && c < Blocks(b)
    ensures c * b.blockSize + b.blockSize <= b.noisy
  {
    assert (c + 1) * b.blockSize <= Blocks(b) * b.blockSize <= b.noisy;
  }

  /** The transition query of one block. */
  function QueryAt(b: Batch, r: nat, c: nat): (q: Query)
    requires BlockAt(b, r, c)
    ensures WellPosed(q) && |q.d.p| == b.blockSize && q.d.vocab == b.vocab
  {
    BlockInside(b, c);
    var lo, hi := c * b.blockSize, c * b.blockSize + b.blockSize;
    Query(Decoder(b.p[r][lo..hi], b.vocab, b.masked[r][lo..hi], b.threshold, b.maskToken),
          b.targets[r][lo..hi], b.selected[r][lo..hi])
  }

  predicate Active(b: Batch, r: nat, c: nat)
    requires BlockAt(b, r, c)
  {
    var s := QueryAt(b, r, c).selected;
    exists i: nat :: i < |s| && s[i]
  }

  function ActiveInRow(b: Batch, r: nat, n: nat): (s: seq<(nat, nat)>)
    requires Shaped(b) && b.noisy % b.blockSize == 0 && r < |b.p| && n <= Blocks(b)
    ensures forall x :: x in s <==> x.0 == r && x.1 < n && Active(b, x.0, x.1)
  {
    if n == 0 then []
    else ActiveInRow(b, r, n - 1) + (if Active(b, r, n - 1) then [(r, n - 1)] else [])
  }

  /** The active blocks of the first `rows` rows, row by row. */
  function ActiveBlocks(b: Batch, rows: nat): (s: seq<(nat, nat)>)
    requires Shaped(b) && b.noisy % b.blockSize == 0 && rows <= |b.p|
    ensures forall x :: x in s <==> x.0 < rows && x.1 < Blocks(b) && Active(b, x.0, x.1)
  {
    if rows == 0 then []
    else ActiveBlocks(b, rows - 1) + ActiveInRow(b, rows - 1, Blocks(b))
  }

  // ---------------------------------------------------------------- what a block reads

  /** Position i of the query is column lo + i of row r, with the row's annotations in that column. */
  ghost predicate ReadsColumns(b: Batch, r: nat, lo: nat, q: Query)
    requires Shaped(b) && r < |b.p|
  {
    && lo + b.blockSize <= b.noisy && |q.d.p| == |q.d.masked| == |q.targets| == |q.selected| == b.blockSize
    && (forall i: nat :: i < b.blockSize ==> q.d.p[i] == b.p[r][lo + i])
    && (forall i: nat :: i < b.blockSize ==> q.d.masked[i] == b.masked[r][lo + i])
    && (forall i: nat :: i < b.blockSize ==> q.targets[i] == b.targets[r][lo + i])
    && (forall i: nat :: i < b.blockSize ==> q.selected[i] == b.selected[r][lo + i])
  }

  /** Query q is about block c of row r: its columns start at c * blockSize, and the vocabulary, the threshold and
      the MASK token are the batch's. */
  ghost predicate Reads(b: Batch, r: nat, c: nat, q: Query)
    requires Shaped(b) && r < |b.p|
  {
    ReadsColumns(b, r, c * b.blockSize, q)
    && q.d.vocab == b.vocab && q.d.threshold == b.threshold && q.d.maskToken == b.maskToken
  }

  ghost predicate SomeTrue(s: seq<bool>, lo: nat, hi: nat)
  {
    exists k: nat :: lo <= k < hi && k < |s| && s[k]
  }

  /** The block reveals something: one of its own columns is selected. */
  ghost predicate SomeSelected(b: Batch, r: nat, c: nat)
    requires Shaped(b) && r < |b.p|
  {
    SomeTrue(b.selected[r], c * b.blockSize, c * b.blockSize + b.blockSize)
  }

  lemma SomeInSlice(s: seq<bool>, lo: nat, hi: nat)
    requires lo <= hi <= |s|
    ensures SomeTrue(s, lo, hi) <==> exists i: nat :: i < |s[lo..hi]| && s[lo..hi][i]
  {
    if SomeTrue(s, lo, hi) {
      var k: nat :| lo <= k < hi && k < |s| && s[k];
      assert s[lo..hi][k - lo];
    }
    if i: nat :| i < |s[lo..hi]| && s[lo..hi][i] {
      assert s[lo + i];
    }
  }

  lemma OwnReading(b: Batch, r: nat, c: nat)
    requires BlockAt(b, r, c)
    ensures Reads(b, r, c, QueryAt(b, r, c))
  {
    BlockInside(b, c);
    var q, lo := QueryAt(b, r, c), c * b.blockSize;
    assert q.d.p == b.p[r][lo..lo + b.blockSize];
  }

  /** The columns determine the query. */
  lemma OneReading(b: Batch, r: nat, lo: nat, q: Query, u: Query)
    requires Shaped(b) && r < |b.p| && ReadsColumns(b, r, lo, q) && ReadsColumns(b, r, lo, u)
    requires q.d.vocab == u.d.vocab && q.d.threshold == u.d.threshold && q.d.maskToken == u.d.maskToken
    ensures q == u
  {
    assert q.d.p == u.d.p;
    assert q.d.masked == u.d.masked;
    assert q.targets == u.targets && q.selected == u.selected;
  }

  lemma SelectedMeansActive(b: Batch, r: nat, c: nat)
    requires BlockAt(b, r, c)
    ensures SomeSelected(b, r, c) <==> Active(b, r, c)
  {
    BlockInside(b, c);
    SomeInSlice(b.selected[r], c * b.blockSize, c * b.blockSize + b.blockSize);
  }

  /** The likelihood and the flag of a block are those of the decoder on the block's own columns, if one of them
      is selected, and one and false otherwise.  Where only masked positions and no MASK are revealed, the
      likelihood is the probability that this decoder shows exactly the selected tokens. */
  ghost predicate HoldsTransition(b: Batch, r: nat, c: nat, likelihood: real, valid: bool)
    requires Shaped(b) && r < |b.p|
  {
    exists q :: Reads(b, r, c, q) && WellPosed(q) &&
      (valid <==> SomeSelected(b, r, c) && Supported(q)) && likelihood == (if valid then Joint(q) else 1.0) &&
      (valid && Revealing(q) ==> likelihood == Probability(q.d.p, q.d.vocab, Preimage(q)))
  }

  lemma StoredTransition(b: Batch, r: nat, c: nat, likelihood: real, valid: bool)
    requires BlockAt(b, r, c) && valid == (Active(b, r, c) && Supported(QueryAt(b, r, c)))
    requires likelihood == if valid then Joint(QueryAt(b, r, c)) else 1.0
    ensures HoldsTransition(b, r, c, likelihood, valid)
  {
    var q := QueryAt(b, r, c);
    OwnReading(b, r, c);
    SelectedMeansActive(b, r, c);
    if Revealing(q) {
      ClosedFormIsTransitionProbability(q);
    }
  }

  // ---------------------------------------------------------------- forward

  /** Entries of `done` hold their transition, every other entry its initial value. */
  ghost predicate Filled(b: Batch, out: array2<real>, valid: array2<bool>, done: seq<(nat, nat)>)
    requires Shaped(b) && out.Length0 == valid.Length0 == |b.p| && out.Length1 == valid.Length1 == Blocks(b)
    reads out, valid
  {
    forall r: nat, c: nat :: BlockAt(b, r, c) ==>
      && valid[r, c] == ((r, c) in done && Supported(QueryAt(b, r, c)))
      && out[r, c] == (if valid[r, c] then Joint(QueryAt(b, r, c)) else 1.0)
  }

  method StoreTransition(b: Batch, r: nat, c: nat, out: array2<real>, valid: array2<bool>, ghost done: seq<(nat, nat)>)
    requires BlockAt(b, r, c) && out.Length0 == valid.Length0 == |b.p| && out.Length1 == valid.Length1 == Blocks(b)
    requires Filled(b, out, valid, done)
    modifies out, valid
    ensures Filled(b, out, valid, done + [(r, c)])
  {
    var q := QueryAt(b, r, c);
    var supported := Supported(q);
    valid[r, c] := supported;
    out[r, c] := if supported then Joint(q) else 1.0;
  }

  method StoreChunk(b: Batch, idx: seq<(nat, nat)>, out: array2<real>, valid: array2<bool>, ghost done: seq<(nat, nat)>)
    requires forall x :: x in idx ==> BlockAt(b, x.0, x.1)
    requires Shaped(b) && out.Length0 == valid.Length0 == |b.p| && out.Length1 == valid.Length1 == Blocks(b)
    requires Filled(b, out, valid, done)
    modifies out, valid
    ensures Filled(b, out, valid, done + idx)
  {
    assert done + idx[..0] == done;
    for k := 0 to |idx|
      invariant Filled(b, out, valid, done + idx[..k])
    {
      assert idx[k] in idx;
      assert done + idx[..k + 1] == done + idx[..k] + [(idx[k].0, idx[k].1)];
      StoreTransition(b, idx[k].0, idx[k].1, out, valid, done + idx[..k]);
    }
    assert idx[..|idx|] == idx;
  }

  method FillBlocks(b: Batch, indices: seq<(nat, nat)>, out: array2<real>, valid: array2<bool>)
    requires forall x :: x in indices ==> BlockAt(b, x.0, x.1)
    requires Shaped(b) && out.Length0 == valid.Length0 == |b.p| && out.Length1 == valid.Length1 == Blocks(b)
    requires Filled(b, out, valid, [])
    modifies out, valid
    ensures Filled(b, out, valid, indices)
  {
    var start := 0;
    while start < |indices|
      invariant 0 <= start <= |indices|
      invariant Filled(b, out, valid, indices[..start])
    {
      var end := if start + CHUNK < |indices| then start + CHUNK else |indices|;
      StoreChunk(b, indices[start..end], out, valid, indices[..start]);
      assert indices[..start] + indices[start..end] == indices[..end];
      start := end;
    }
    assert indices[..|indices|] == indices;
  }

  /** Forward pass.  A block without a transition or without support reads as probability one (log
      zero); the flags tell those entries apart.  Only a block-aligned noisy side is accepted. */
  method Forward(b: Batch) returns (aligned: bool, out: array2<real>, valid: array2<bool>)
    requires Shaped(b)
    ensures aligned <==> b.noisy % b.blockSize == 0
    ensures aligned ==> out.Length0 == valid.Length0 == |b.p| && out.Length1 == valid.Length1 == b.noisy / b.blockSize
    ensures aligned ==> forall r: nat, c: nat :: r < |b.p| && c < b.noisy / b.blockSize ==>
              HoldsTransition(b, r, c, out[r, c], valid[r, c])
  {
    aligned := b.noisy % b.blockSize == 0;
    if !aligned {
      out, valid := new real[0, 0], new bool[0, 0];
      return;
    }
    out := new real[|b.p|, Blocks(b)]((_, _) => 1.0);
    valid := new bool[|b.p|, Blocks(b)]((_, _) => false);
    var indices := ActiveBlocks(b, |b.p|);
    FillBlocks(b, indices, out, valid);
    FilledIsTransition(b, out, valid, indices);
  }

  lemma FilledIsTransition(b: Batch, out: array2<real>, valid: array2<bool>, done: seq<(nat, nat)>)
    requires Shaped(b) && out.Length0 == valid.Length0 == |b.p| && out.Length1 == valid.Length1 == Blocks(b)
    requires b.noisy % b.blockSize == 0 && Filled(b, out, valid, done) && ListsActive(b, done)
    ensures forall r: nat, c: nat :: r < |b.p| && c < b.noisy / b.blockSize ==>
              HoldsTransition(b, r, c, out[r, c], valid[r, c])
  {
    forall r: nat, c: nat | r < |b.p| && c < Blocks(b)
      ensures HoldsTransition(b, r, c, out[r, c], valid[r, c])
    {
      assert BlockAt(b, r, c);
      ActiveWhenDone(b, done, r, c);
      StoredTransition(b, r, c, out[r, c], valid[r, c]);
    }
  }

  // ---------------------------------------------------------------- backward

  lemma BlockOf(size: nat, c: nat, s: nat)
    requires size > 0
    ensures s / size == c <==> c * size <= s < c * size + size
    ensures s / size == c ==> s % size == s - c * size
  {
    assert s == (s / size) * size + s % size;
    if s / size < c {
      assert (s / size + 1) * size <= c * size;
    } else if s / size > c {
      assert (c + 1) * size <= (s / size) * size;
    }
  }

  /** The weighted score rows of one block. */
  function ScoreRows(q: Query, weight: real): (rows: Rows)
    requires WellPosed(q)
    ensures |rows| == |q.d.p|
    ensures forall i, v :: 0 <= i < |rows| && 0 <= v < q.d.vocab ==>
              |rows[i]| == q.d.vocab && rows[i][v] == Times(weight, Score(q, i, v))
  {
    seq(|q.d.p|, i requires 0 <= i < |q.d.p| =>
      seq(q.d.vocab, v requires 0 <= v < q.d.vocab => Times(weight, Score(q, i, v))))
  }

  ghost predicate Upstream(b: Batch, weights: seq<seq<real>>)
  {
    && Shaped(b) && b.noisy % b.blockSize == 0
    && |weights| == |b.p| && forall i :: 0 <= i < |b.p| ==> |weights[i]| == Blocks(b)
  }

  /** What the backward pass owes position i of block c: the block's weight times the score. */
  function OwedIn(b: Batch, weights: seq<seq<real>>, r: nat, c: nat, i: nat): (row: seq<real>)
    requires Upstream(b, weights) && BlockAt(b, r, c) && i < b.blockSize
    ensures |row| == b.vocab
  {
    ScoreRows(QueryAt(b, r, c), weights[r][c])[i]
  }

  /** The same for noisy position s of row r. */
  function OwedAt(b: Batch, weights: seq<seq<real>>, r: nat, s: nat): (row: seq<real>)
    requires Upstream(b, weights) && r < |b.p| && s < b.noisy
    ensures |row| == b.vocab
  {
    InBlocks(b, s);
    OwedIn(b, weights, r, s / b.blockSize, s % b.blockSize)
  }

  lemma InBlocks(b: Batch, s: nat)
    requires b.blockSize > 0 && b.noisy % b.blockSize == 0 && s < b.noisy
    ensures s / b.blockSize < Blocks(b)
  {
    assert s == (s / b.blockSize) * b.blockSize + s % b.blockSize;
    assert b.noisy == Blocks(b) * b.blockSize;
    MulLess(s / b.blockSize, Blocks(b), b.blockSize);
  }

  ghost function Owed(b: Batch, weights: seq<seq<real>>): (owed: seq<Rows>)
    requires Upstream(b, weights)
    ensures |owed| == |b.p| && Sized(owed, b.noisy, b.vocab)
  {
    seq(|b.p|, r requires 0 <= r < |b.p| => seq(b.noisy, s requires 0 <= s < b.noisy => OwedAt(b, weights, r, s)))
  }

  ghost predicate Sized(owed: seq<Rows>, noisy: nat, vocab: nat)
  {
    && (forall r :: 0 <= r < |owed| ==> |owed[r]| == noisy)
    && (forall r, s :: 0 <= r < |owed| && 0 <= s < noisy ==> |owed[r][s]| == vocab)
  }

  /** Blocks in `done` have received what they are owed; everything else is still zero. */
  ghost predicate Propagated(owed: seq<Rows>, noisy: nat, size: nat, grad: array3<real>, done: seq<(nat, nat)>)
    requires size > 0 && |owed| == grad.Length0 && noisy <= grad.Length1 && Sized(owed, noisy, grad.Length2)
    reads grad
  {
    forall r: nat, s: nat, v: nat :: r < grad.Length0 && s < grad.Length1 && v < grad.Length2 ==>
      grad[r, s, v] == if s < noisy && (r, s / size) in done then owed[r][s][v] else 0.0
  }

  /** `grad[row, lo : lo + |rows|] = rows`. */
  method WriteRows(grad: array3<real>, row: nat, lo: nat, rows: Rows)
    requires row < grad.Length0 && lo + |rows| <= grad.Length1
    requires forall i :: 0 <= i < |rows| ==> |rows[i]| == grad.Length2
    modifies grad
    ensures forall a: nat, s: nat, v: nat :: a < grad.Length0 && s < grad.Length1 && v < grad.Length2 ==>
              grad[a, s, v] == if a == row && lo <= s < lo + |rows| then rows[s - lo][v] else old(grad[a, s, v])
  {
    forall s: nat, v: nat | lo <= s < lo + |rows| && v < grad.Length2 {
      grad[row, s, v] := rows[s - lo][v];
    }
  }

  method PropagateBlock(grad: array3<real>, r: nat, c: nat, rows: Rows,
                        ghost owed: seq<Rows>, noisy: nat, size: nat, ghost done: seq<(nat, nat)>)
    requires size > 0 && |owed| == grad.Length0 && noisy <= grad.Length1 && Sized(owed, noisy, grad.Length2)
    requires r < |owed| && c * size + size <= noisy && rows == owed[r][c * size..c * size + size]
    requires Propagated(owed, noisy, size, grad, done)
    modifies grad
    ensures Propagated(owed, noisy, size, grad, done + [(r, c)])
  {
    WriteRows(grad, r, c * size, rows);
    forall a: nat, s: nat, v: nat | a < grad.Length0 && s < grad.Length1 && v < grad.Length2
      ensures grad[a, s, v] == if s < noisy && (a, s / size) in done + [(r, c)] then owed[a][s][v] else 0.0
    {
      BlockOf(size, c, s);
    }
  }

  lemma OwedInBlock(b: Batch, weights: seq<seq<real>>, r: nat, c: nat, i: nat, s: nat)
    requires BlockAt(b, r, c) && Upstream(b, weights) && i < b.blockSize && s == c * b.blockSize + i
    ensures s < b.noisy && OwedAt(b, weights, r, s) == OwedIn(b, weights, r, c, i)
  {
    BlockInside(b, c);
    BlockOf(b.blockSize, c, s);
  }

  lemma SliceOf<T>(part: seq<T>, whole: seq<T>, lo: nat)
    requires lo + |part| <= |whole| && forall i :: 0 <= i < |part| ==> part[i] == whole[lo + i]
    ensures part == whole[lo..lo + |part|]
  {
  }

  lemma OwedToBlock(b: Batch, weights: seq<seq<real>>, r: nat, c: nat, lo: nat)
    requires BlockAt(b, r, c) && Upstream(b, weights) && lo == c * b.blockSize
    ensures lo + b.blockSize <= b.noisy
    ensures ScoreRows(QueryAt(b, r, c), weights[r][c]) == Owed(b, weights)[r][lo..lo + b.blockSize]
  {
    BlockInside(b, c);
    var rows, owed := ScoreRows(QueryAt(b, r, c), weights[r][c]), Owed(b, weights)[r];
    forall i | 0 <= i < |rows|
      ensures rows[i] == owed[lo + i]
    {
      OwedInBlock(b, weights, r, c, i, lo + i);
    }
    SliceOf(rows, owed, lo);
  }

  method PropagateChunk(b: Batch, weights: seq<seq<real>>, idx: seq<(nat, nat)>, grad: array3<real>,
                        ghost owed: seq<Rows>, ghost done: seq<(nat, nat)>)
    requires Upstream(b, weights) && owed == Owed(b, weights)
    requires grad.Length0 == |b.p| && grad.Length1 == b.length && grad.Length2 == b.vocab
    requires forall x :: x in idx ==> BlockAt(b, x.0, x.1)
    requires Propagated(owed, b.noisy, b.blockSize, grad, done)
    modifies grad
    ensures Propagated(owed, b.noisy, b.blockSize, grad, done + idx)
  {
    assert done + idx[..0] == done;
    for k := 0 to |idx|
      invariant Propagated(owed, b.noisy, b.blockSize, grad, done + idx[..k])
    {
      var r, c := idx[k].0, idx[k].1;
      assert idx[k] in idx;
      assert done + idx[..k + 1] == done + idx[..k] + [(r, c)];
      OwedToBlock(b, weights, r, c, c * b.blockSize);
      var rows := ScoreRows(QueryAt(b, r, c), weights[r][c]);
      PropagateBlock(grad, r, c, rows, owed, b.noisy, b.blockSize, done + idx[..k]);
    }
    assert idx[..|idx|] == idx;
  }

  predicate Receives(b: Batch, r: nat, s: nat)
    requires Shaped(b) && b.noisy % b.blockSize == 0 && r < |b.p|
  {
    s < b.noisy && (InBlocks(b, s); Active(b, r, s / b.blockSize))
  }

  ghost predicate IsGradient(b: Batch, weights: seq<seq<real>>, grad: array3<real>)
    requires Upstream(b, weights)
    requires grad.Length0 == |b.p| && grad.Length1 == b.length && grad.Length2 == b.vocab
    reads grad
  {
    forall r: nat, s: nat, v: nat :: r < |b.p| && s < b.length && v < b.vocab ==>
      grad[r, s, v] == if Receives(b, r, s) then OwedAt(b, weights, r, s)[v] else 0.0
  }

  lemma PropagatedIsGradient(b: Batch, weights: seq<seq<real>>, grad: array3<real>, owed: seq<Rows>,
      done: seq<(nat, nat)>)
    requires Upstream(b, weights) && owed == Owed(b, weights)
    requires grad.Length0 == |b.p| && grad.Length1 == b.length && grad.Length2 == b.vocab
    requires Propagated(owed, b.noisy, b.blockSize, grad, done) && ListsActive(b, done)
    ensures IsGradient(b, weights, grad)
  {
    forall r: nat, s: nat, v: nat | r < |b.p| && s < b.length && v < b.vocab
      ensures grad[r, s, v] == if Receives(b, r, s) then OwedAt(b, weights, r, s)[v] else 0.0
    {
      ReceivesWhenDone(b, done, r, s);
      if s < b.noisy {
        assert owed[r][s] == OwedAt(b, weights, r, s);
      }
    }
  }

  /** `done` lists the active blocks. */
  ghost predicate ListsActive(b: Batch, done: seq<(nat, nat)>)
    requires Shaped(b) && b.noisy % b.blockSize == 0
  {
    forall x :: x in done <==> x.0 < |b.p| && x.1 < Blocks(b) && Active(b, x.0, x.1)
  }

  lemma ActiveWhenDone(b: Batch, done: seq<(nat, nat)>, r: nat, c: nat)
    requires Shaped(b) && b.noisy % b.blockSize == 0 && ListsActive(b, done) && r < |b.p| && c < Blocks(b)
    ensures Active(b, r, c) <==> (r, c) in done
  {
    var x := (r, c);
    assert x in done <==> Active(b, x.0, x.1);
  }

  lemma ReceivesWhenDone(b: Batch, done: seq<(nat, nat)>, r: nat, s: nat)
    requires Shaped(b) && b.noisy % b.blockSize == 0 && r < |b.p| && ListsActive(b, done)
    ensures Receives(b, r, s) <==> s < b.noisy && (r, s / b.blockSize) in done
  {
    if s < b.noisy {
      InBlocks(b, s);
      ActiveWhenDone(b, done, r, s / b.blockSize);
    }
  }

  /** What the gradient holds at noisy column s of row r for token v: the upstream weight of the column's block
      times the score of v at the column's own position of the decoder on the block's columns, if one of these is
      selected.  In particular, for a selected column of a supported block it is the weight times the indicator
      of the column's own target less the column's probability of v; an unmasked column and a block without
      support receive nothing. */
  ghost predicate ReceivesScore(b: Batch, weights: seq<seq<real>>, r: nat, s: nat, v: nat, g: real)
    requires Upstream(b, weights) && r < |b.p| && s < b.noisy && s / b.blockSize < |weights[r]| && v < b.vocab
  {
    var c, weight := s / b.blockSize, weights[r][s / b.blockSize];
    exists q :: Reads(b, r, c, q) && WellPosed(q) &&
      (g == if SomeSelected(b, r, c) then Times(weight, Score(q, s % b.blockSize, v)) else 0.0) &&
      (b.masked[r][s] && b.selected[r][s] && Supported(q) ==>
         g == Times(weight, (if v == b.targets[r][s] then 1.0 else 0.0) - b.p[r][s][v])) &&
      (!b.masked[r][s] || !Supported(q) ==> g == 0.0)
  }

  lemma ColumnOf(b: Batch, r: nat, s: nat)
    requires Shaped(b) && b.noisy % b.blockSize == 0 && r < |b.p| && s < b.noisy
    ensures BlockAt(b, r, s / b.blockSize) && Reads(b, r, s / b.blockSize, QueryAt(b, r, s / b.blockSize))
    ensures var q, i := QueryAt(b, r, s / b.blockSize), s % b.blockSize;
            && q.d.p[i] == b.p[r][s] && q.d.masked[i] == b.masked[r][s]
            && q.targets[i] == b.targets[r][s] && q.selected[i] == b.selected[r][s]
            && (b.selected[r][s] ==> Active(b, r, s / b.blockSize))
  {
    InBlocks(b, s);
    OwnReading(b, r, s / b.blockSize);
    assert s == s / b.blockSize * b.blockSize + s % b.blockSize;
  }

  /** The score at a selected position of a supported query, and where it vanishes. */
  lemma ScoreCases(q: Query, i: nat, v: nat, weight: real)
    requires WellPosed(q) && i < |q.d.p| && v < q.d.vocab
    ensures var g := Times(weight, Score(q, i, v));
            && (q.d.masked[i] && q.selected[i] && Supported(q) ==>
                  g == Times(weight, (if v == q.targets[i] then 1.0 else 0.0) - q.d.p[i][v]))
            && (!q.d.masked[i] || !Supported(q) ==> g == 0.0)
  {
    assert Times(weight, 0.0) == 0.0;
  }

  lemma BlockNumber(s: nat, blockSize: nat) returns (c: nat)
    requires blockSize > 0
    ensures c == s / blockSize
  {
    c := s / blockSize;
  }

  lemma OwedIsScore(b: Batch, weights: seq<seq<real>>, r: nat, s: nat, v: nat, g: real)
    requires Upstream(b, weights) && r < |b.p| && s < b.noisy && v < b.vocab
    requires g == if Receives(b, r, s) then OwedAt(b, weights, r, s)[v] else 0.0
    ensures s / b.blockSize < |weights[r]| && ReceivesScore(b, weights, r, s, v, g)
  {
    var c := BlockNumber(s, b.blockSize);
    ColumnOf(b, r, s);
    SelectedMeansActive(b, r, c);
    ScoreFits(b, weights, r, s, v, g, QueryAt(b, r, c));
  }

  lemma ScoreFits(b: Batch, weights: seq<seq<real>>, r: nat, s: nat, v: nat, g: real, q: Query)
    requires Upstream(b, weights) && r < |b.p| && s < b.noisy && s / b.blockSize < |weights[r]| && v < b.vocab
    requires Reads(b, r, s / b.blockSize, q) && WellPosed(q)
    requires q.d.p[s % b.blockSize] == b.p[r][s] && q.d.masked[s % b.blockSize] == b.masked[r][s]
    requires q.targets[s % b.blockSize] == b.targets[r][s] && q.selected[s % b.blockSize] == b.selected[r][s]
    requires b.selected[r][s] ==> SomeSelected(b, r, s / b.blockSize)
    requires g == if SomeSelected(b, r, s / b.blockSize)
                  then Times(weights[r][s / b.blockSize], Score(q, s % b.blockSize, v)) else 0.0
    ensures ReceivesScore(b, weights, r, s, v, g)
  {
    ScoreCases(q, s % b.blockSize, v, weights[r][s / b.blockSize]);
  }

  /** Every noisy column receives its own score, and the clean side nothing. */
  ghost predicate IsScoreGradient(b: Batch, weights: seq<seq<real>>, grad: array3<real>)
    requires Upstream(b, weights)
    requires grad.Length0 == |b.p| && grad.Length1 == b.length && grad.Length2 == b.vocab
    reads grad
  {
    && (forall r: nat, s: nat, v: nat :: r < |b.p| && s < b.noisy && v < b.vocab ==>
          s / b.blockSize < |weights[r]| && ReceivesScore(b, weights, r, s, v, grad[r, s, v]))
    && (forall r: nat, s: nat, v: nat :: r < |b.p| && b.noisy <= s < b.length && v < b.vocab ==> grad[r, s, v] == 0.0)
  }

  lemma GradientIsScore(b: Batch, weights: seq<seq<real>>, grad: array3<real>)
    requires Upstream(b, weights)
    requires grad.Length0 == |b.p| && grad.Length1 == b.length && grad.Length2 == b.vocab
    requires IsGradient(b, weights, grad)
    ensures IsScoreGradient(b, weights, grad)
  {
    forall r: nat, s: nat, v: nat | r < |b.p| && s < b.noisy && v < b.vocab
      ensures s / b.blockSize < |weights[r]| && ReceivesScore(b, weights, r, s, v, grad[r, s, v])
    {
      OwedIsScore(b, weights, r, s, v, grad[r, s, v]);
    }
  }

  /** Backward pass: every column of a block that reveals something receives the block's upstream weight times the
      score of its transition; other blocks and the clean side receive nothing. */
  method Backward(b: Batch, weights: seq<seq<real>>) returns (grad: array3<real>)
    requires Upstream(b, weights)
    ensures grad.Length0 == |b.p| && grad.Length1 == b.length && grad.Length2 == b.vocab
    ensures IsScoreGradient(b, weights, grad)
  {
    var indices := ActiveBlocks(b, |b.p|);
    ghost var owed := Owed(b, weights);
    grad := new real[|b.p|, b.length, b.vocab]((_, _, _) => 0.0);
    var start := 0;
    while start < |indices|
      invariant 0 <= start <= |indices|
      invariant Propagated(owed, b.noisy, b.blockSize, grad, indices[..start])
    {
      var end := if start + CHUNK < |indices| then start + CHUNK else |indices|;
      PropagateChunk(b, weights, indices[start..end], grad, owed, indices[..start]);
      assert indices[..start] + indices[start..end] == indices[..end];
      start := end;
    }
    assert indices[..|indices|] == indices;
    PropagatedIsGradient(b, weights, grad, owed, indices);
    GradientIsScore(b, weights, grad);
  }

  /** The score of an unsupported transition is zero, and a masked position's gradient row sums to
      zero: the update moves probability between tokens, never in or out. */
  lemma GradientRowSumsToZero(b: Batch, weights: seq<seq<real>>, r: nat, s: nat)
    requires Upstream(b, weights) && r < |b.p| && s < b.noisy
    ensures SumOf(OwedAt(b, weights, r, s), b.vocab) == 0.0
  {
    InBlocks(b, s);
    BlockRowSumsToZero(b, weights, r, s / b.blockSize, s % b.blockSize);
  }

  lemma BlockRowSumsToZero(b: Batch, weights: seq<seq<real>>, r: nat, c: nat, i: nat)
    requires BlockAt(b, r, c) && Upstream(b, weights) && i < b.blockSize
    ensures SumOf(OwedIn(b, weights, r, c, i), b.vocab) == 0.0
  {
    var q := QueryAt(b, r, c);
    ScoreRowTotal(q, i, weights[r][c], OwedIn(b, weights, r, c, i), b.vocab);
    if q.d.masked[i] && Supported(q) {
      ScoreRowSumsToZero(q, i);
    }
  }

  function SumOf(row: seq<real>, k: nat): real
    requires k <= |row|
  {
    if k == 0 then 0.0 else SumOf(row, k - 1) + row[k - 1]
  }

  lemma {:induction false} ScoreRowTotal(q: Query, i: nat, weight: real, row: seq<real>, k: nat)
    requires WellPosed(q) && i < |q.d.p| && |row| == q.d.vocab && k <= q.d.vocab
    requires forall v :: 0 <= v < q.d.vocab ==> row[v] == Times(weight, Score(q, i, v))
    ensures SumOf(row, k) == Times(weight, ScoreRowSum(q, i, k))
    ensures !(q.d.masked[i] && Supported(q)) ==> ScoreRowSum(q, i, k) == 0.0
  {
    if k > 0 {
      ScoreRowTotal(q, i, weight, row, k - 1);
      Distribute(weight, ScoreRowSum(q, i, k - 1), Score(q, i, k - 1));
    }
  }
}
