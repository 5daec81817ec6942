/** Top-k and top-p filtering of logits (nemo_rl/algorithms/logits_sampling_utils.py, lines 51-210).
    The exponential is any positive function and the sort any function that sorts each row. */
module NucleusFilter {
  import opened Permutations

  datatype Logit = Finite(x: real) | NegInf

  predicate Leq(a: Logit, b: Logit)
  {
    a.NegInf? || (b.Finite? && a.x <= b.x)
  }

  type Exp = real -> real

  ghost predicate Positive(ex: Exp)
  {
    forall x :: ex(x) > 0.0
  }

  function Weight(ex: Exp, l: Logit): real
  {
    if l.Finite? then ex(l.x) else 0.0
  }

  ghost predicate Sorts(row: seq<Logit>, idx: seq<nat>)
  {
    |idx| == |row| && IsPermutation(idx) && forall i, j :: 0 <= i <= j < |row| ==> Leq(row[idx[i]], row[idx[j]])
  }

  type Sorter = seq<Logit> -> seq<nat>

  ghost predicate SortsAll(sort: Sorter)
  {
    forall row :: Sorts(row, sort(row))
  }

  // ---------------------------------------------------------------- one row, in sorted order

  predicate NeedTopK(k: int)
  {
    k > 0
  }

  /** Top-k keeps what is at least the k-th value from the top. */
  function TopKMask(sorted: seq<Logit>, k: int): (m: seq<bool>)
    requires k <= |sorted|
    ensures |m| == |sorted|
  {
    seq(|sorted|, j requires 0 <= j < |sorted| => !NeedTopK(k) || Leq(sorted[|sorted| - k], sorted[j]))
  }

  function Fill(row: seq<Logit>, mask: seq<bool>): (r: seq<Logit>)
    requires |mask| == |row|
    ensures |r| == |row|
  {
    seq(|row|, j requires 0 <= j < |row| => if mask[j] then row[j] else NegInf)
  }

  function Weights(row: seq<Logit>, ex: Exp): (w: seq<real>)
    ensures |w| == |row| && forall j :: 0 <= j < |row| ==> w[j] == Weight(ex, row[j])
  {
    seq(|row|, j requires 0 <= j < |row| => Weight(ex, row[j]))
  }

  /** Some logit is finite, so the softmax is defined. */
  predicate Normalises(row: seq<Logit>)
  {
    exists v :: 0 <= v < |row| && row[v].Finite?
  }

  lemma {:induction false} SumNonNegative(ws: seq<real>, n: nat)
    requires n <= |ws| && forall j :: 0 <= j < |ws| ==> ws[j] >= 0.0
    ensures SumTo(ws, n) >= 0.0
    ensures forall j :: 0 <= j < n ==> SumTo(ws, n) >= ws[j]
  {
    if n > 0 {
      SumNonNegative(ws, n - 1);
    }
  }

  lemma PositiveTotal(row: seq<Logit>, ex: Exp)
    requires Positive(ex) && Normalises(row)
    ensures Sum(Weights(row, ex)) > 0.0
  {
    SumNonNegative(Weights(row, ex), |row|);
  }

  function Softmax(row: seq<Logit>, ex: Exp): (p: seq<real>)
    requires Positive(ex) && Normalises(row)
    ensures |p| == |row|
  {
    PositiveTotal(row, ex);
    seq(|row|, j requires 0 <= j < |row| => Weight(ex, row[j]) / Sum(Weights(row, ex)))
  }

  predicate Above(probs: seq<real>, p: real, j: nat)
    requires j < |probs|
  {
    SumTo(probs, j + 1) > 1.0 - p
  }

  /** Top-p keeps what lies above the lowest 1 - p of the cumulative mass, and always the largest. */
  function TopPMask(probs: seq<real>, p: real): (m: seq<bool>)
    ensures |m| == |probs|
  {
    seq(|probs|, j requires 0 <= j < |probs| => Above(probs, p, j) || j == |probs| - 1)
  }

  datatype Filtered = Filtered(logits: seq<Logit>, keep: seq<bool>)

  /** The sorted row with everything below the top k at -inf. */
  function Shrunk(row: seq<Logit>, idx: seq<nat>, k: int): (r: seq<Logit>)
    requires Sorts(row, idx) && k <= |row|
    ensures |r| == |row|
  {
    Fill(Gather(row, idx), TopKMask(Gather(row, idx), k))
  }

  lemma StillNormalises(row: seq<Logit>, idx: seq<nat>, k: int)
    requires Sorts(row, idx) && Normalises(row) && k <= |row|
    ensures Normalises(Shrunk(row, idx, k))
  {
    var v :| 0 <= v < |row| && row[v].Finite?;
    Occurs(idx, v);
    var top := |row| - 1;
    assert Leq(row[idx[Place(idx, v)]], row[idx[top]]);
    assert Shrunk(row, idx, k)[top].Finite?;
  }

  function SortedProbs(row: seq<Logit>, idx: seq<nat>, k: int, ex: Exp): (p: seq<real>)
    requires Sorts(row, idx) && Normalises(row) && k <= |row| && Positive(ex)
    ensures |p| == |row|
  {
    StillNormalises(row, idx, k);
    Softmax(Shrunk(row, idx, k), ex)
  }

  /** The top-p mask of a sorted row.  Without a finite logit the probabilities are not numbers and no
      comparison with them holds, so only the last place stays. */
  function SortedTopP(row: seq<Logit>, idx: seq<nat>, k: int, p: real, ex: Exp): (m: seq<bool>)
    requires Sorts(row, idx) && k <= |row| && Positive(ex)
    ensures |m| == |row|
  {
    if Normalises(row) then TopPMask(SortedProbs(row, idx, k, ex), p)
    else seq(|row|, j requires 0 <= j < |row| => j == |row| - 1)
  }

  function SortedMask(row: seq<Logit>, idx: seq<nat>, k: int, p: real, ex: Exp): (m: seq<bool>)
    requires Sorts(row, idx) && k <= |row| && Positive(ex)
    ensures |m| == |row|
  {
    var topK, topP := TopKMask(Gather(row, idx), k), SortedTopP(row, idx, k, p, ex);
    seq(|row|, j requires 0 <= j < |row| => topK[j] && topP[j])
  }

  /** One row of a chunk: sort, mask, scatter back. */
  function FilterRow(row: seq<Logit>, idx: seq<nat>, k: int, p: real, ex: Exp): (f: Filtered)
    requires Sorts(row, idx) && k <= |row| && Positive(ex)
    ensures |f.logits| == |f.keep| == |row|
  {
    Filtered(Scatter(Fill(Shrunk(row, idx, k), SortedTopP(row, idx, k, p, ex)), idx),
             Scatter(SortedMask(row, idx, k, p, ex), idx))
  }

  /** Kept logits are unchanged and at their place; the others are -inf. */
  lemma KeptUnchanged(row: seq<Logit>, idx: seq<nat>, k: int, p: real, ex: Exp, v: nat)
    requires Sorts(row, idx) && k <= |row| && Positive(ex) && v < |row|
    ensures var f := FilterRow(row, idx, k, p, ex);
            |f.logits| == |f.keep| == |row| && f.logits[v] == if f.keep[v] then row[v] else NegInf
  {
    Occurs(idx, v);
  }

  /** A row without a finite logit keeps the one token the sort puts last, and its logit is -inf too. */
  lemma UndefinedRow(row: seq<Logit>, idx: seq<nat>, k: int, p: real, ex: Exp, v: nat)
    requires Sorts(row, idx) && k <= |row| && Positive(ex) && v < |row| && !Normalises(row)
    ensures var f := FilterRow(row, idx, k, p, ex);
            |f.logits| == |f.keep| == |row| && f.logits[v] == NegInf && (f.keep[v] <==> v == idx[|row| - 1])
  {
    KeptUnchanged(row, idx, k, p, ex, v);
    Occurs(idx, v);
    var top := |row| - 1;
    Occurs(idx, idx[top]);
    assert Place(idx, idx[top]) == top;
    assert TopKMask(Gather(row, idx), k)[top];
  }

  // ---------------------------------------------------------------- top-k, sorted and unsorted

  /** What `torch.topk` promises of its indices. */
  ghost predicate IsTop(row: seq<Logit>, k: nat, top: seq<nat>)
  {
    && |top| == k && (forall a :: 0 <= a < k ==> top[a] < |row|)
    && (forall a, b :: 0 <= a < b < k ==> top[a] != top[b] && Leq(row[top[b]], row[top[a]]))
    && (forall a, v :: 0 <= a < k && 0 <= v < |row| && v !in top ==> Leq(row[v], row[top[a]]))
  }

  type TopK = (seq<Logit>, nat) -> seq<nat>

  /** `_apply_top_k_only_fn` on a row: everything at least the last of the top k values. */
  function TopKOnly(row: seq<Logit>, k: nat, top: seq<nat>): (f: Filtered)
    requires k > 0 && |top| == k && forall a :: 0 <= a < k ==> top[a] < |row|
  {
    var keep := seq(|row|, v requires 0 <= v < |row| => Leq(row[top[k - 1]], row[v]));
    Filtered(Fill(row, keep), keep)
  }

  /** t is the k-th largest value: k entries reach it, fewer lie above. */
  ghost predicate KthLargest(row: seq<Logit>, k: nat, t: Logit)
  {
    CountIf(row, x => Leq(t, x), |row|) >= k > CountIf(row, x => !Leq(x, t), |row|)
  }

  ghost function CountIf(row: seq<Logit>, f: Logit -> bool, n: nat): nat
    requires n <= |row|
  {
    if n == 0 then 0 else CountIf(row, f, n - 1) + (if f(row[n - 1]) then 1 else 0)
  }

  ghost function Where(row: seq<Logit>, f: Logit -> bool, n: nat): (s: set<int>)
    requires n <= |row|
    ensures |s| == CountIf(row, f, n)
    ensures forall v :: v in s <==> 0 <= v < n && f(row[v])
  {
    if n == 0 then {} else if f(row[n - 1]) then Where(row, f, n - 1) + {n - 1} else Where(row, f, n - 1)
  }

  lemma {:induction false} CountMono(row: seq<Logit>, f: Logit -> bool, g: Logit -> bool, n: nat)
    requires n <= |row| && forall x :: f(x) ==> g(x)
    ensures CountIf(row, f, n) <= CountIf(row, g, n)
  {
    if n > 0 {
      CountMono(row, f, g, n - 1);
    }
  }

  lemma KthIsUnique(row: seq<Logit>, k: nat, t: Logit, u: Logit)
    requires KthLargest(row, k, t) && KthLargest(row, k, u)
    ensures t == u
  {
    if !Leq(t, u) {
      CountMono(row, x => Leq(t, x), x => !Leq(x, u), |row|);
    }
    if !Leq(u, t) {
      CountMono(row, x => Leq(u, x), x => !Leq(x, t), |row|);
    }
  }

  /** k distinct indices that reach t, all others at most t, and one of the k equal to t. */
  lemma KthFromIndices(row: seq<Logit>, k: nat, top: seq<nat>, last: nat)
    requires last < |top| == k && (forall a :: 0 <= a < k ==> top[a] < |row|)
    requires forall a, b :: 0 <= a < b < k ==> top[a] != top[b]
    requires forall a :: 0 <= a < k ==> Leq(row[top[last]], row[top[a]])
    requires forall v :: 0 <= v < |row| && v !in top ==> Leq(row[v], row[top[last]])
    ensures KthLargest(row, k, row[top[last]])
  {
    KthReached(row, k, top, row[top[last]]);
    FewAbove(row, k, top, last);
  }

  lemma KthReached(row: seq<Logit>, k: nat, top: seq<nat>, t: Logit)
    requires |top| == k && (forall a :: 0 <= a < k ==> top[a] < |row| && Leq(t, row[top[a]]))
    requires forall a, b :: 0 <= a < b < k ==> top[a] != top[b]
    ensures CountIf(row, x => Leq(t, x), |row|) >= k
  {
    DistinctCount(top, k, Where(row, x => Leq(t, x), |row|));
  }

  lemma FewAbove(row: seq<Logit>, k: nat, top: seq<nat>, last: nat)
    requires last < |top| == k && (forall a :: 0 <= a < k ==> top[a] < |row|)
    requires forall v :: 0 <= v < |row| && v !in top ==> Leq(row[v], row[top[last]])
    ensures CountIf(row, x => !Leq(x, row[top[last]]), |row|) < k
  {
    var above := Where(row, x => !Leq(x, row[top[last]]), |row|);
    assert top[last] !in above;
    forall x | x in above
      ensures x in Entries(top)
    {
      assert !Leq(row[x], row[top[last]]);
    }
    Subset(above + {top[last] as int}, Entries(top));
  }

  /** The threshold taken from the sorted row. */
  lemma SortedThreshold(row: seq<Logit>, idx: seq<nat>, k: nat)
    requires Sorts(row, idx) && 0 < k <= |row|
    ensures KthLargest(row, k, row[idx[|row| - k]])
  {
    var top := idx[|row| - k..];
    assert forall i :: |row| - k <= i < |row| ==> idx[i] in top;
    forall v | 0 <= v < |row| && v !in top
      ensures Leq(row[v], row[top[0]])
    {
      Occurs(idx, v);
      var j := Place(idx, v);
      assert j < |row| - k;
    }
    KthFromIndices(row, k, top, 0);
  }

  /** The sorted path's top-k mask, put back in original order, is the mask of the path that does not
      sort, ties included. */
  lemma SameTopKMask(row: seq<Logit>, idx: seq<nat>, k: nat, top: seq<nat>, v: nat)
    requires Sorts(row, idx) && 0 < k <= |row| && IsTop(row, k, top) && v < |row|
    ensures Scatter(TopKMask(Gather(row, idx), k), idx)[v] == TopKOnly(row, k, top).keep[v]
  {
    SortedThreshold(row, idx, k);
    KthFromIndices(row, k, top, k - 1);
    KthIsUnique(row, k, row[idx[|row| - k]], row[top[k - 1]]);
    Occurs(idx, v);
  }

  // ---------------------------------------------------------------- top-k, said of the row itself

  /** Entries before n that lie strictly above t. */
  function Larger(row: seq<Logit>, t: Logit, n: nat): nat
    requires n <= |row|
  {
    if n == 0 then 0 else Larger(row, t, n - 1) + (if Leq(row[n - 1], t) then 0 else 1)
  }

  /** Token v survives top-k: fewer than k entries of the row lie strictly above it.  So at least k tokens do, ties
      with the k-th included; without top-k all do. */
  predicate Survives(row: seq<Logit>, k: int, v: nat)
    requires v < |row|
  {
    k > 0 ==> Larger(row, row[v], |row|) < k
  }

  lemma {:induction false} LargerCounts(row: seq<Logit>, t: Logit, n: nat)
    requires n <= |row|
    ensures Larger(row, t, n) == CountIf(row, x => !Leq(x, t), n)
  {
    if n > 0 {
      LargerCounts(row, t, n - 1);
    }
  }

  /** Reaching the k-th largest value is having fewer than k entries above. */
  lemma ReachingIsSurviving(row: seq<Logit>, k: nat, t: Logit, v: nat)
    requires KthLargest(row, k, t) && v < |row| && 0 < k
    ensures Leq(t, row[v]) <==> Survives(row, k, v)
  {
    var x := row[v];
    LargerCounts(row, x, |row|);
    if Leq(t, x) {
      CountMono(row, y => !Leq(y, x), y => !Leq(y, t), |row|);
    } else {
      CountMono(row, y => Leq(t, y), y => !Leq(y, x), |row|);
    }
  }

  /** The top-k mask of the sorting path, in original order. */
  lemma SortedKeepsSurvivors(row: seq<Logit>, idx: seq<nat>, k: int, v: nat)
    requires Sorts(row, idx) && k <= |row| && v < |row|
    ensures Scatter(TopKMask(Gather(row, idx), k), idx)[v] <==> Survives(row, k, v)
  {
    Occurs(idx, v);
    if k > 0 {
      SortedThreshold(row, idx, k);
      ReachingIsSurviving(row, k, row[idx[|row| - k]], v);
    }
  }

  /** The mask of the path that does not sort. */
  lemma UnsortedKeepsSurvivors(row: seq<Logit>, k: nat, top: seq<nat>, v: nat)
    requires 0 < k <= |row| && IsTop(row, k, top) && v < |row|
    ensures TopKOnly(row, k, top).keep[v] <==> Survives(row, k, v)
  {
    KthFromIndices(row, k, top, k - 1);
    ReachingIsSurviving(row, k, row[top[k - 1]], v);
  }

  /** At least k tokens survive. */
  lemma EnoughSurvive(row: seq<Logit>, idx: seq<nat>, k: nat)
    requires Sorts(row, idx) && 0 < k <= |row|
    ensures |(set v: int | 0 <= v < |row| && Survives(row, k, v))| >= k
  {
    var t, alive := row[idx[|row| - k]], set v: int | 0 <= v < |row| && Survives(row, k, v);
    SortedThreshold(row, idx, k);
    var reach := Where(row, x => Leq(t, x), |row|);
    forall v: nat | v < |row|
      ensures Leq(t, row[v]) <==> Survives(row, k, v)
    {
      ReachingIsSurviving(row, k, t, v);
    }
    Subset(reach, alive);
  }

  function Share(w: real, whole: real): real
  {
    if whole == 0.0 then 0.0 else w / whole
  }

  function SurvivingWeights(row: seq<Logit>, k: int, ex: Exp): (ws: seq<real>)
    ensures |ws| == |row|
  {
    seq(|row|, v requires 0 <= v < |row| => if Survives(row, k, v) then Weight(ex, row[v]) else 0.0)
  }

  /** The softmax of the row over the tokens that survive top-k. */
  function Probs(row: seq<Logit>, k: int, ex: Exp): (ps: seq<real>)
    ensures |ps| == |row|
  {
    var ws := SurvivingWeights(row, k, ex);
    seq(|row|, v requires 0 <= v < |row| => Share(ws[v], Sum(ws)))
  }

  // ---------------------------------------------------------------- the mass that is kept

  /** Probability of each token under the softmax over the top k, in original order. */
  function TopKProbs(row: seq<Logit>, idx: seq<nat>, k: int, ex: Exp): (p: seq<real>)
    requires Sorts(row, idx) && Normalises(row) && k <= |row| && Positive(ex)
    ensures |p| == |row|
  {
    Scatter(SortedProbs(row, idx, k, ex), idx)
  }

  /** The sorted path's probabilities, in original order, are those of the row itself. */
  lemma ProbsInOrder(row: seq<Logit>, idx: seq<nat>, k: int, ex: Exp)
    requires Sorts(row, idx) && Normalises(row) && k <= |row| && Positive(ex)
    ensures TopKProbs(row, idx, k, ex) == Probs(row, k, ex)
  {
    StillNormalises(row, idx, k);
    var shrunk, ws := Shrunk(row, idx, k), SurvivingWeights(row, k, ex);
    PositiveTotal(shrunk, ex);
    forall j | 0 <= j < |row|
      ensures Gather(ws, idx)[j] == Weights(shrunk, ex)[j]
    {
      SortedKeepsSurvivors(row, idx, k, idx[j]);
      assert Place(idx, idx[j]) == j;
    }
    SumInAnyOrder(ws, idx);
    SumAgrees(Gather(ws, idx), Weights(shrunk, ex), |row|);
    forall v | 0 <= v < |row|
      ensures TopKProbs(row, idx, k, ex)[v] == Probs(row, k, ex)[v]
    {
      Occurs(idx, v);
      assert Gather(ws, idx)[Place(idx, v)] == ws[v];
    }
  }

  /** Sum of the entries a mask keeps. */
  function KeptMass(probs: seq<real>, keep: seq<bool>): real
    requires |keep| == |probs|
  {
    Sum(Masked(probs, keep))
  }

  function Masked(probs: seq<real>, keep: seq<bool>): (r: seq<real>)
    requires |keep| == |probs|
    ensures |r| == |probs|
  {
    seq(|probs|, v requires 0 <= v < |probs| => if keep[v] then probs[v] else 0.0)
  }

  lemma {:induction false} SumScaled(ws: seq<real>, ps: seq<real>, z: real, n: nat)
    requires z > 0.0 && n <= |ws| == |ps| && forall j :: 0 <= j < |ws| ==> ps[j] == ws[j] / z
    ensures SumTo(ps, n) == Over(SumTo(ws, n), z)
  {
    if n > 0 {
      SumScaled(ws, ps, z, n - 1);
      AddRatios(SumTo(ws, n - 1), ws[n - 1], z);
    } else {
      Ratio(0.0, z);
    }
  }

  /** A softmax is a distribution; entries above -inf are positive, the others 0. */
  lemma SoftmaxSumsToOne(row: seq<Logit>, ex: Exp)
    requires Positive(ex) && Normalises(row)
    ensures Sum(Softmax(row, ex)) == 1.0
    ensures forall j :: 0 <= j < |row| ==>
              Softmax(row, ex)[j] >= 0.0 && (row[j] == NegInf ==> Softmax(row, ex)[j] == 0.0)
  {
    PositiveTotal(row, ex);
    var z := Sum(Weights(row, ex));
    SumScaled(Weights(row, ex), Softmax(row, ex), z, |row|);
    assert Over(z, z) == 1.0;
    forall j | 0 <= j < |row|
      ensures Softmax(row, ex)[j] >= 0.0 && (row[j] == NegInf ==> Softmax(row, ex)[j] == 0.0)
    {
      Ratio(Weight(ex, row[j]), z);
    }
  }

  lemma AddRatios(a: real, b: real, z: real)
    requires z > 0.0
    ensures Over(a + b, z) == Over(a, z) + Over(b, z)
  {
  }

  function Over(a: real, z: real): real
    requires z > 0.0
  {
    a / z
  }

  lemma Ratio(a: real, z: real)
    requires a >= 0.0 && z > 0.0
    ensures a / z >= 0.0 && (a == 0.0 ==> a / z == 0.0)
  {
  }

  /** First kept place of the cumulative mask. */
  lemma {:induction false} FirstAbove(probs: seq<real>, p: real, n: nat) returns (first: nat)
    requires 0 < n <= |probs| && (forall j :: 0 <= j < |probs| ==> probs[j] >= 0.0)
    requires SumTo(probs, n) > 1.0 - p
    ensures first < n && SumTo(probs, first + 1) > 1.0 - p
    ensures 1.0 - p >= 0.0 ==> SumTo(probs, first) <= 1.0 - p
    ensures forall j :: 0 <= j < n ==> (Above(probs, p, j) <==> j >= first)
  {
    if n == 1 || SumTo(probs, n - 1) <= 1.0 - p {
      first := n - 1;
      PrefixMono(probs, n - 1);
    } else {
      first := FirstAbove(probs, p, n - 1);
    }
  }

  lemma {:induction false} PrefixMono(probs: seq<real>, n: nat)
    requires n <= |probs| && (forall j :: 0 <= j < |probs| ==> probs[j] >= 0.0)
    ensures forall j :: 0 <= j <= n ==> SumTo(probs, j) <= SumTo(probs, n)
  {
    if n > 0 {
      PrefixMono(probs, n - 1);
    }
  }

  lemma {:induction false} SuffixMass(probs: seq<real>, keep: seq<bool>, first: nat, n: nat)
    requires first <= n <= |probs| == |keep| && forall j :: 0 <= j < |keep| ==> keep[j] == (j >= first)
    ensures SumTo(Masked(probs, keep), n) == SumTo(probs, n) - SumTo(probs, first)
    decreases n
  {
    if n == first {
      Zeroes(Masked(probs, keep), n);
    } else {
      SuffixMass(probs, keep, first, n - 1);
    }
  }

  /** In sorted order: the kept places are a suffix that holds at least p, and less without its first. */
  lemma SortedMass(probs: seq<real>, p: real) returns (first: nat)
    requires |probs| > 0 && (forall j :: 0 <= j < |probs| ==> probs[j] >= 0.0) && Sum(probs) == 1.0 && 0.0 < p <= 1.0
    ensures first < |probs| && forall j :: 0 <= j < |probs| ==> TopPMask(probs, p)[j] == (j >= first)
    ensures KeptMass(probs, TopPMask(probs, p)) >= p > KeptMass(probs, TopPMask(probs, p)) - probs[first]
  {
    first := FirstAbove(probs, p, |probs|);
    SuffixMass(probs, TopPMask(probs, p), first, |probs|);
  }

  lemma MaskedInOrder(probs: seq<real>, keep: seq<bool>, idx: seq<nat>)
    requires IsPermutation(idx) && |idx| == |probs| == |keep|
    ensures KeptMass(Scatter(probs, idx), Scatter(keep, idx)) == KeptMass(probs, keep)
  {
    var back := Masked(Scatter(probs, idx), Scatter(keep, idx));
    SumInAnyOrder(back, idx);
    forall j | 0 <= j < |idx|
      ensures Gather(back, idx)[j] == Masked(probs, keep)[j]
    {
      assert Place(idx, idx[j]) == j;
    }
    SumAgrees(Gather(back, idx), Masked(probs, keep), |idx|);
  }

  /** Dropping places of no mass from a mask changes nothing. */
  lemma ZeroOutside(probs: seq<real>, keep: seq<bool>, fewer: seq<bool>)
    requires |probs| == |keep| == |fewer|
    requires forall j :: 0 <= j < |probs| ==> (fewer[j] ==> keep[j]) && (keep[j] && !fewer[j] ==> probs[j] == 0.0)
    ensures KeptMass(probs, fewer) == KeptMass(probs, keep)
  {
    SumAgrees(Masked(probs, keep), Masked(probs, fewer), |probs|);
  }

  /** The token is kept and no kept token is smaller. */
  ghost predicate LeastKept(row: seq<Logit>, keep: seq<bool>, least: nat)
    requires |keep| == |row|
  {
    least < |row| && keep[least] && forall v :: 0 <= v < |row| && keep[v] ==> Leq(row[least], row[v])
  }

  /** A least kept token is as likely as the first kept place. */
  lemma LeastIsFirst(row: seq<Logit>, idx: seq<nat>, k: int, p: real, ex: Exp, least: nat, first: nat)
    requires Sorts(row, idx) && Normalises(row) && k <= |row| && Positive(ex) && first < |row|
    requires LeastKept(row, FilterRow(row, idx, k, p, ex).keep, least)
    requires forall j :: 0 <= j < |row| ==> TopPMask(SortedProbs(row, idx, k, ex), p)[j] == (j >= first)
    requires SortedProbs(row, idx, k, ex)[first] > 0.0
    ensures TopKProbs(row, idx, k, ex)[least] == SortedProbs(row, idx, k, ex)[first]
  {
    Occurs(idx, least);
    StillNormalises(row, idx, k);
    SoftmaxSumsToOne(Shrunk(row, idx, k), ex);
    var place, sorted := Place(idx, least), Gather(row, idx);
    assert SortedMask(row, idx, k, p, ex)[place];
    assert place >= first && Leq(row[idx[first]], row[idx[place]]);
    assert TopKMask(sorted, k)[first];
    assert SortedMask(row, idx, k, p, ex)[first];
    Occurs(idx, idx[first]);
    assert Place(idx, idx[first]) == first;
    assert FilterRow(row, idx, k, p, ex).keep[idx[first]];
    assert row[least] == row[idx[first]];
  }

  /** Within the top k, the kept tokens hold at least p of the mass, and hold less than p without any
      least likely one of them. */
  lemma KeptMassIsNucleus(row: seq<Logit>, idx: seq<nat>, k: int, p: real, ex: Exp, least: nat)
    requires Sorts(row, idx) && Normalises(row) && k <= |row| && Positive(ex) && 0.0 < p <= 1.0
    requires LeastKept(row, FilterRow(row, idx, k, p, ex).keep, least)
    ensures var keep, probs := FilterRow(row, idx, k, p, ex).keep, Probs(row, k, ex);
            KeptMass(probs, keep) >= p > KeptMass(probs, keep) - probs[least]
  {
    StillNormalises(row, idx, k);
    var probs, mask := SortedProbs(row, idx, k, ex), SortedMask(row, idx, k, p, ex);
    SoftmaxSumsToOne(Shrunk(row, idx, k), ex);
    var first := SortedMass(probs, p);
    ZeroOutside(probs, TopPMask(probs, p), mask);
    MaskedInOrder(probs, mask, idx);
    LeastIsFirst(row, idx, k, p, ex, least, first);
    ProbsInOrder(row, idx, k, ex);
  }

  /** Nothing above a kept token is dropped. */
  lemma KeptIsUpwardClosed(row: seq<Logit>, idx: seq<nat>, k: int, p: real, ex: Exp, v: nat, u: nat)
    requires Sorts(row, idx) && Normalises(row) && k <= |row| && Positive(ex) && 0.0 < p <= 1.0
    requires v < |row| && u < |row| && FilterRow(row, idx, k, p, ex).keep[v] && !Leq(row[u], row[v])
    ensures FilterRow(row, idx, k, p, ex).keep[u]
  {
    StillNormalises(row, idx, k);
    var probs, sorted := SortedProbs(row, idx, k, ex), Gather(row, idx);
    SoftmaxSumsToOne(Shrunk(row, idx, k), ex);
    var first := SortedMass(probs, p);
    Occurs(idx, v);
    Occurs(idx, u);
    var pv, pu := Place(idx, v), Place(idx, u);
    assert forall i, j :: 0 <= i <= j < |row| ==> Leq(row[idx[i]], row[idx[j]]);
    assert pu >= pv;
    assert SortedMask(row, idx, k, p, ex)[pv] && TopPMask(probs, p)[pu];
    assert SortedMask(row, idx, k, p, ex)[pu];
  }

  /** There is a least kept token, so the nucleus is never empty. */
  lemma SomeLeastKept(row: seq<Logit>, idx: seq<nat>, k: int, p: real, ex: Exp) returns (least: nat)
    requires Sorts(row, idx) && Normalises(row) && k <= |row| && Positive(ex) && 0.0 < p <= 1.0
    ensures LeastKept(row, FilterRow(row, idx, k, p, ex).keep, least)
  {
    StillNormalises(row, idx, k);
    var probs, sorted := SortedProbs(row, idx, k, ex), Gather(row, idx);
    SoftmaxSumsToOne(Shrunk(row, idx, k), ex);
    var first := SortedMass(probs, p);
    FirstIsPositive(probs, p, first);
    least := idx[first];
    assert SortedMask(row, idx, k, p, ex)[first];
    Occurs(idx, least);
    forall v: nat | v < |row| && FilterRow(row, idx, k, p, ex).keep[v]
      ensures Leq(row[least], row[v])
    {
      NoneBeforeFirst(row, idx, k, p, ex, first, v);
    }
  }

  lemma NoneBeforeFirst(row: seq<Logit>, idx: seq<nat>, k: int, p: real, ex: Exp, first: nat, v: nat)
    requires Sorts(row, idx) && Normalises(row) && k <= |row| && Positive(ex) && first < |row| && v < |row|
    requires forall j :: 0 <= j < |row| ==> TopPMask(SortedProbs(row, idx, k, ex), p)[j] == (j >= first)
    requires FilterRow(row, idx, k, p, ex).keep[v]
    ensures Leq(row[idx[first]], row[v])
  {
    Occurs(idx, v);
    assert SortedMask(row, idx, k, p, ex)[Place(idx, v)];
    assert Place(idx, v) >= first;
  }

  lemma FirstIsPositive(probs: seq<real>, p: real, first: nat)
    requires first < |probs|
    requires KeptMass(probs, TopPMask(probs, p)) >= p > KeptMass(probs, TopPMask(probs, p)) - probs[first]
    ensures probs[first] > 0.0
  {
  }

  // ---------------------------------------------------------------- a filtered row

  /** Only survivors of top-k are kept. */
  lemma KeptSurvive(row: seq<Logit>, idx: seq<nat>, k: int, p: real, ex: Exp, v: nat)
    requires Sorts(row, idx) && k <= |row| && Positive(ex) && v < |row| && FilterRow(row, idx, k, p, ex).keep[v]
    ensures Survives(row, k, v)
  {
    SortedKeepsSurvivors(row, idx, k, v);
    Occurs(idx, v);
  }

  /** A nucleus of the row among the survivors of top-k: they hold at least p of their mass, and less than p without
      any least likely of them; none is dropped that lies above a kept one, and some token is kept. */
  ghost predicate IsNucleus(row: seq<Logit>, k: int, p: real, ex: Exp, keep: seq<bool>)
    requires |keep| == |row|
  {
    && KeptMass(Probs(row, k, ex), keep) >= p
    && (exists v: nat :: LeastKept(row, keep, v))
    && (forall v: nat :: LeastKept(row, keep, v) ==> KeptMass(Probs(row, k, ex), keep) - Probs(row, k, ex)[v] < p)
    && (forall v, u :: 0 <= v < |row| && 0 <= u < |row| && keep[v] && !Leq(row[u], row[v]) ==> keep[u])
  }

  /** What a row becomes for top-p below or at one: kept logits stay in place and the others are -inf, only
      survivors of top-k are kept, and among them a nucleus; a row without a finite logit keeps one token. */
  ghost predicate RowFiltered(row: seq<Logit>, k: int, p: real, ex: Exp, logits: seq<Logit>, keep: seq<bool>)
  {
    && |logits| == |keep| == |row|
    && (forall v :: 0 <= v < |row| ==> logits[v] == if keep[v] then row[v] else NegInf)
    && (Normalises(row) ==> forall v: nat :: v < |row| && keep[v] ==> Survives(row, k, v))
    && (Normalises(row) && 0.0 < p <= 1.0 ==> IsNucleus(row, k, p, ex, keep))
    && (!Normalises(row) ==> exists u: nat :: OnlyKept(keep, u))
  }

  ghost predicate OnlyKept(keep: seq<bool>, u: nat)
  {
    u < |keep| && forall v :: 0 <= v < |keep| ==> (keep[v] <==> v == u)
  }

  lemma FilterIsNucleus(row: seq<Logit>, idx: seq<nat>, k: int, p: real, ex: Exp)
    requires Sorts(row, idx) && Normalises(row) && k <= |row| && Positive(ex) && 0.0 < p <= 1.0
    ensures IsNucleus(row, k, p, ex, FilterRow(row, idx, k, p, ex).keep)
  {
    var keep := FilterRow(row, idx, k, p, ex).keep;
    var least := SomeLeastKept(row, idx, k, p, ex);
    KeptMassIsNucleus(row, idx, k, p, ex, least);
    forall v: nat | LeastKept(row, keep, v)
      ensures KeptMass(Probs(row, k, ex), keep) - Probs(row, k, ex)[v] < p
    {
      KeptMassIsNucleus(row, idx, k, p, ex, v);
    }
    forall v, u | 0 <= v < |row| && 0 <= u < |row| && keep[v] && !Leq(row[u], row[v])
      ensures keep[u]
    {
      KeptIsUpwardClosed(row, idx, k, p, ex, v, u);
    }
  }

  lemma FilterRowFilters(row: seq<Logit>, idx: seq<nat>, k: int, p: real, ex: Exp)
    requires Sorts(row, idx) && k <= |row| && Positive(ex) && row != []
    ensures var f := FilterRow(row, idx, k, p, ex); RowFiltered(row, k, p, ex, f.logits, f.keep)
  {
    var f := FilterRow(row, idx, k, p, ex);
    forall v | 0 <= v < |row|
      ensures f.logits[v] == if f.keep[v] then row[v] else NegInf
    {
      KeptUnchanged(row, idx, k, p, ex, v);
    }
    forall v: nat | v < |row| && f.keep[v]
      ensures Survives(row, k, v)
    {
      KeptSurvive(row, idx, k, p, ex, v);
    }
    if !Normalises(row) {
      forall v | 0 <= v < |row|
        ensures f.keep[v] <==> v == idx[|row| - 1]
      {
        UndefinedRow(row, idx, k, p, ex, v);
      }
      assert OnlyKept(f.keep, idx[|row| - 1]);
    } else if 0.0 < p <= 1.0 {
      FilterIsNucleus(row, idx, k, p, ex);
    }
  }

  /** What a row becomes without top-p: exactly the survivors are kept. */
  ghost predicate TopKFiltered(row: seq<Logit>, k: int, f: Filtered)
  {
    && |f.logits| == |f.keep| == |row|
    && (forall v: nat :: v < |row| ==> (f.keep[v] <==> Survives(row, k, v)))
    && (forall v: nat :: v < |row| ==> f.logits[v] == if Survives(row, k, v) then row[v] else NegInf)
  }

  lemma TopKOnlyFilters(row: seq<Logit>, k: nat, top: seq<nat>)
    requires 0 < k <= |row| && IsTop(row, k, top)
    ensures TopKFiltered(row, k, TopKOnly(row, k, top))
  {
    forall v: nat | v < |row|
      ensures TopKOnly(row, k, top).keep[v] <==> Survives(row, k, v)
    {
      UnsortedKeepsSurvivors(row, k, top, v);
    }
  }

  // ---------------------------------------------------------------- in chunks

  datatype Output =
    | Unfiltered
    | TopKRows(rows: seq<Filtered>)
    | Chunked(filtered: array2<Logit>, keep: array2<bool>)
    | NothingWritten
    | ZeroStep
    | TopKTooLarge

  ghost predicate Batch(logits: seq<seq<Logit>>, vocab: nat)
  {
    vocab > 0 && forall t :: 0 <= t < |logits| ==> |logits[t]| == vocab
  }

  ghost predicate PicksTop(topk: TopK)
  {
    forall row, k: nat :: k <= |row| ==> IsTop(row, k, topk(row, k))
  }

  ghost function RowAt<T>(a: array2<T>, t: nat): (row: seq<T>)
    requires t < a.Length0
    reads a
    ensures |row| == a.Length1 && forall v :: 0 <= v < a.Length1 ==> row[v] == a[t, v]
  {
    seq(a.Length1, v requires 0 <= v < a.Length1 reads a => a[t, v])
  }

  /** What a call answers, whatever the chunk size, said of the rows themselves. */
  ghost predicate Answers(out: Output, logits: seq<seq<Logit>>, vocab: nat, k: int, p: real, ex: Exp)
    reads if out.Chunked? then {out.filtered, out.keep} else {}
  {
    if p == 1.0 && k <= 0 then out == Unfiltered
    else if p == 1.0 then
      && out.TopKRows? && |out.rows| == |logits|
      && forall t :: 0 <= t < |logits| ==> TopKFiltered(logits[t], k, out.rows[t])
    else
      && out.Chunked? && out.filtered.Length0 == out.keep.Length0 == |logits|
      && out.filtered.Length1 == out.keep.Length1 == vocab
      && forall t: nat :: t < |logits| ==>
           RowFiltered(logits[t], k, p, ex, RowAt(out.filtered, t), RowAt(out.keep, t))
  }

  function RowResult(logits: seq<seq<Logit>>, vocab: nat, k: int, p: real, sort: Sorter, ex: Exp, t: nat): (f: Filtered)
    requires Batch(logits, vocab) && SortsAll(sort) && Positive(ex) && k <= vocab && t < |logits|
    ensures |f.logits| == |f.keep| == vocab
  {
    assert Sorts(logits[t], sort(logits[t]));
    FilterRow(logits[t], sort(logits[t]), k, p, ex)
  }

  /** `_apply_top_k_top_p_fn`.  With a negative chunk size the loop does not run and the allocated outputs
      stay as they are: `NothingWritten`. */
  method ApplyTopKTopP(logits: seq<seq<Logit>>, vocab: nat, k: int, p: real, chunked: bool, chunk: int,
      sort: Sorter, topk: TopK, ex: Exp)
    returns (out: Output)
    requires Batch(logits, vocab) && SortsAll(sort) && PicksTop(topk) && Positive(ex)
    ensures out == ZeroStep <==> p != 1.0 && (if chunked then chunk == 0 else logits == [])
    ensures out == NothingWritten <==> p != 1.0 && chunked && chunk < 0
    ensures out == TopKTooLarge <==> k > vocab && (p == 1.0 || (logits != [] && !(chunked && chunk <= 0)))
    ensures out != ZeroStep && out != NothingWritten && k <= vocab ==>
              Answers(out, logits, vocab, k, p, ex)
  {
    var n := |logits|;
    if p == 1.0 {
      if !NeedTopK(k) {
        return Unfiltered;
      }
      if k > vocab {
        return TopKTooLarge;
      }
      assert forall t :: 0 <= t < n ==> IsTop(logits[t], k, topk(logits[t], k));
      out := TopKRows(seq(n, t requires 0 <= t < n => TopKOnly(logits[t], k, topk(logits[t], k))));
      forall t | 0 <= t < n
        ensures TopKFiltered(logits[t], k, out.rows[t])
      {
        TopKOnlyFilters(logits[t], k, topk(logits[t], k));
      }
      return;
    }
    var step := if chunked then chunk else n;
    var filtered := new Logit[n, vocab]((_, _) => NegInf);
    var keep := new bool[n, vocab]((_, _) => false);
    if step == 0 {
      return ZeroStep;
    }
    if step < 0 {
      return NothingWritten;
    }
    var start := 0;
    while start < n
      invariant start > 0 ==> k <= vocab
      invariant fresh(filtered) && fresh(keep) && filtered.Length0 == keep.Length0 == n &&
                filtered.Length1 == keep.Length1 == vocab
      invariant k <= vocab ==> forall t, v :: 0 <= t < n && t < start && 0 <= v < vocab ==>
                  filtered[t, v] == RowResult(logits, vocab, k, p, sort, ex, t).logits[v]
      invariant k <= vocab ==> forall t, v :: 0 <= t < n && t < start && 0 <= v < vocab ==>
                  keep[t, v] == RowResult(logits, vocab, k, p, sort, ex, t).keep[v]
    {
      var end := if start + step < n then start + step else n;
      if k > vocab {
        return TopKTooLarge;
      }
      forall t, v | start <= t < end && 0 <= v < vocab {
        filtered[t, v] := RowResult(logits, vocab, k, p, sort, ex, t).logits[v];
      }
      forall t, v | start <= t < end && 0 <= v < vocab {
        keep[t, v] := RowResult(logits, vocab, k, p, sort, ex, t).keep[v];
      }
      start := start + step;
    }
    out := Chunked(filtered, keep);
    if k <= vocab {
      RowsFiltered(logits, vocab, k, p, sort, ex, filtered, keep);
    }
  }

  lemma RowsFiltered(logits: seq<seq<Logit>>, vocab: nat, k: int, p: real, sort: Sorter, ex: Exp,
      filtered: array2<Logit>, keep: array2<bool>)
    requires Batch(logits, vocab) && SortsAll(sort) && Positive(ex) && k <= vocab
    requires filtered.Length0 == keep.Length0 == |logits| && filtered.Length1 == keep.Length1 == vocab
    requires forall t, v :: 0 <= t < |logits| && 0 <= v < vocab ==>
               filtered[t, v] == RowResult(logits, vocab, k, p, sort, ex, t).logits[v]
    requires forall t, v :: 0 <= t < |logits| && 0 <= v < vocab ==>
               keep[t, v] == RowResult(logits, vocab, k, p, sort, ex, t).keep[v]
    ensures forall t: nat :: t < |logits| ==>
              RowFiltered(logits[t], k, p, ex, RowAt(filtered, t), RowAt(keep, t))
  {
    forall t: nat | t < |logits|
      ensures RowFiltered(logits[t], k, p, ex, RowAt(filtered, t), RowAt(keep, t))
    {
      assert Sorts(logits[t], sort(logits[t]));
      FilterRowFilters(logits[t], sort(logits[t]), k, p, ex);
      assert RowAt(filtered, t) == RowResult(logits, vocab, k, p, sort, ex, t).logits;
      assert RowAt(keep, t) == RowResult(logits, vocab, k, p, sort, ex, t).keep;
    }
  }
}
