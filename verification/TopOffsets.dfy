/** `build_block_topk_offsets`: the m most entropic offsets of every block, ascending, -1 where a block
    has fewer (nemo_rl/algorithms/block_just_grpo_logprobs.py, lines 130-192). */
module TopOffsets {
  import opened Arithmetic
  import opened Permutations
  import opened SelectedLevels

  /** An entropy, or the +inf an EOS token is boosted to. */
  datatype Entropy = Finite(value: real) | Infinite

  predicate Below(a: Entropy, b: Entropy)
  {
    a.Finite? && (b.Infinite? || a.value < b.value)
  }

  predicate Negative(a: Entropy)
  {
    a.Finite? && a.value < 0.0
  }

  /** What `torch.topk` promises: m indices, none twice, none below one that was left out. */
  ghost predicate IsTop(grid: seq<Entropy>, m: nat, idx: seq<nat>)
  {
    && |idx| == m
    && (forall a :: 0 <= a < m ==> idx[a] < |grid|)
    && (forall a, b :: 0 <= a < b < m ==> idx[a] != idx[b])
    && (forall a, o :: 0 <= a < m && 0 <= o < |grid| && o !in idx ==> !Below(grid[idx[a]], grid[o]))
  }

  type TopK = (seq<Entropy>, nat) -> seq<nat>

  ghost predicate Selects(topk: TopK)
  {
    forall grid, m: nat :: m <= |grid| ==> IsTop(grid, m, topk(grid, m))
  }

  // ---------------------------------------------------------------- ascending sort

  function Insert(x: nat, s: seq<nat>): seq<nat>
  {
    if s == [] then [x] else if x <= s[0] then [x] + s else [s[0]] + Insert(x, s[1..])
  }

  function Sort(s: seq<nat>): seq<nat>
  {
    if s == [] then [] else Insert(s[0], Sort(s[1..]))
  }

  /** Ascending, and strictly so below `top`. */
  ghost predicate Neat(s: seq<nat>, top: nat)
  {
    && (forall a :: 0 <= a < |s| ==> s[a] <= top)
    && (forall a, b :: 0 <= a < b < |s| ==> s[a] < s[b] || s[a] == s[b] == top)
  }

  function CountBelow(s: seq<nat>, top: nat): nat
  {
    if s == [] then 0 else (if s[0] < top then 1 else 0) + CountBelow(s[1..], top)
  }

  lemma {:induction false} InsertAdds(x: nat, s: seq<nat>, top: nat)
    ensures |Insert(x, s)| == |s| + 1 &&
              CountBelow(Insert(x, s), top) == CountBelow(s, top) + (if x < top then 1 else 0)
    ensures forall y :: y in Insert(x, s) <==> y == x || y in s
  {
    if s == [] {
      assert Insert(x, s)[1..] == [];
    } else if x <= s[0] {
      assert Insert(x, s)[1..] == s;
    } else {
      InsertAdds(x, s[1..], top);
      assert Insert(x, s)[1..] == Insert(x, s[1..]);
    }
  }

  lemma {:induction false} InsertKeeps(x: nat, s: seq<nat>, top: nat)
    requires Neat(s, top) && x <= top && (x in s ==> x == top)
    ensures Neat(Insert(x, s), top)
  {
    if s != [] && s[0] < x {
      InsertKeeps(x, s[1..], top);
      var t := Insert(x, s[1..]);
      InsertAdds(x, s[1..], top);
      assert Insert(x, s)[1..] == t;
      forall a | 0 <= a < |t|
        ensures s[0] < t[a] || s[0] == t[a] == top
      {
        assert t[a] in t;
      }
    }
  }

  lemma {:induction false} SortKeeps(s: seq<nat>, top: nat)
    requires forall a :: 0 <= a < |s| ==> s[a] <= top
    requires forall a, b :: 0 <= a < b < |s| && s[a] == s[b] ==> s[a] == top
    ensures Neat(Sort(s), top) && |Sort(s)| == |s| && CountBelow(Sort(s), top) == CountBelow(s, top)
    ensures forall y :: y in Sort(s) <==> y in s
  {
    if s != [] {
      SortKeeps(s[1..], top);
      InsertAdds(s[0], Sort(s[1..]), top);
      InsertKeeps(s[0], Sort(s[1..]), top);
    }
  }

  /** In a neat sequence the entries below `top` come first. */
  lemma {:induction false} BelowFirst(s: seq<nat>, top: nat, a: nat)
    requires Neat(s, top) && a < |s|
    ensures CountBelow(s, top) <= |s| && (s[a] < top <==> a < CountBelow(s, top))
  {
    if s[0] == top {
      NoneBelow(s, top);
    } else if |s| > 1 {
      BelowFirst(s[1..], top, if a == 0 then 0 else a - 1);
    }
  }

  lemma {:induction false} NoneBelow(s: seq<nat>, top: nat)
    requires forall a :: 0 <= a < |s| ==> s[a] == top
    ensures CountBelow(s, top) == 0
  {
    if s != [] {
      NoneBelow(s[1..], top);
    }
  }

  // ---------------------------------------------------------------- one block

  /** The kept offsets of a block from the indices `topk` returned: invalid ones sort last, as -1. */
  function KeptOffsets(grid: seq<Entropy>, idx: seq<nat>): seq<int>
    requires forall a :: 0 <= a < |idx| ==> idx[a] < |grid|
  {
    var sel := Marked(grid, idx);
    var sorted := Sort(sel);
    seq(|sorted|, a requires 0 <= a < |sorted| => var o: int := sorted[a]; if o == |grid| then -1 else o)
  }

  function Marked(grid: seq<Entropy>, idx: seq<nat>): seq<nat>
    requires forall a :: 0 <= a < |idx| ==> idx[a] < |grid|
  {
    seq(|idx|, a requires 0 <= a < |idx| => if Negative(grid[idx[a]]) then |grid| else idx[a])
  }

  /** The first `valid` entries are real entropies, the rest the negative fill. */
  ghost predicate Filled(grid: seq<Entropy>, valid: nat)
  {
    valid <= |grid| && forall o :: 0 <= o < |grid| ==> (Negative(grid[o]) <==> o >= valid)
  }

  function Smaller(idx: seq<int>, valid: int): (s: set<int>)
    ensures forall x :: x in s <==> x in idx && x < valid
  {
    if idx == [] then {} else if idx[0] < valid then Smaller(idx[1..], valid) + {idx[0]} else Smaller(idx[1..], valid)
  }

  /** Kept valid indices, counted as a set. */
  lemma {:induction false} MarkedCount(grid: seq<Entropy>, idx: seq<nat>, valid: nat)
    requires Filled(grid, valid)
    requires forall a :: 0 <= a < |idx| ==> idx[a] < |grid|
    requires forall a, b :: 0 <= a < b < |idx| ==> idx[a] != idx[b]
    ensures CountBelow(Marked(grid, idx), |grid|) == |Smaller(idx, valid)|
  {
    if idx != [] {
      MarkedCount(grid, idx[1..], valid);
      assert Marked(grid, idx)[1..] == Marked(grid, idx[1..]);
      assert idx[0] !in idx[1..];
    }
  }

  /** Once an invalid index is kept, every valid one is. */
  lemma InvalidMeansAll(grid: seq<Entropy>, m: nat, idx: seq<nat>, valid: nat, a: nat, o: nat)
    requires Filled(grid, valid) && IsTop(grid, m, idx) && a < m && idx[a] >= valid && o < valid
    ensures o in idx
  {
    assert Below(grid[idx[a]], grid[o]);
  }

  /** Either every kept index is valid, or every valid index is kept. */
  lemma KeptOrAll(grid: seq<Entropy>, m: nat, idx: seq<nat>, valid: nat)
    requires Filled(grid, valid) && IsTop(grid, m, idx)
    ensures |Smaller(idx, valid)| == Lesser(m, valid)
  {
    DistinctEntries(idx);
    if a :| 0 <= a < m && idx[a] >= valid {
      forall o: nat | o < valid
        ensures o in idx
      {
        InvalidMeansAll(grid, m, idx, valid, a, o);
      }
      assert Smaller(idx, valid) == Naturals(valid);
      Subset(Naturals(valid), Entries(idx));
    } else {
      assert Smaller(idx, valid) == Entries(idx);
      Subset(Entries(idx), Naturals(valid));
    }
  }

  ghost function Lesser(m: nat, valid: nat): nat
  {
    if m < valid then m else valid
  }

  /** min(m, valid) offsets, ascending, then -1 to the end. */
  lemma KeptShape(grid: seq<Entropy>, m: nat, idx: seq<nat>, valid: nat)
    requires Filled(grid, valid) && IsTop(grid, m, idx)
    ensures var r := KeptOffsets(grid, idx);
            && |r| == m
            && (forall a :: 0 <= a < m ==> if a < Lesser(m, valid) then 0 <= r[a] < valid else r[a] == -1)
            && (forall a, b :: 0 <= a < b < Lesser(m, valid) ==> r[a] < r[b])
    ensures forall o: nat :: o in KeptOffsets(grid, idx) <==> o in idx && o < valid
  {
    SortedShape(grid, m, idx, valid);
    var sorted, r := Sort(Marked(grid, idx)), KeptOffsets(grid, idx);
    forall a | 0 <= a < m && r[a] >= 0
      ensures r[a] in idx && r[a] < valid
    {
      assert sorted[a] == r[a];
    }
    forall o: nat | o in idx && o < valid
      ensures o in r
    {
      SortKeeps(Marked(grid, idx), |grid|);
      var b :| 0 <= b < m && idx[b] == o;
      assert Marked(grid, idx)[b] == o && o in sorted;
      var a :| 0 <= a < m && sorted[a] == o;
      assert r[a] == o;
    }
  }

  lemma MarkedFine(grid: seq<Entropy>, m: nat, idx: seq<nat>, valid: nat)
    requires Filled(grid, valid) && IsTop(grid, m, idx)
    ensures var sel := Marked(grid, idx);
            && (forall a :: 0 <= a < m ==> sel[a] <= |grid| && (sel[a] < |grid| ==> sel[a] < valid && sel[a] in idx))
            && (forall a, b :: 0 <= a < b < m && sel[a] == sel[b] ==> sel[a] == |grid|)
  {
  }

  lemma SortedShape(grid: seq<Entropy>, m: nat, idx: seq<nat>, valid: nat)
    requires Filled(grid, valid) && IsTop(grid, m, idx)
    ensures var sorted := Sort(Marked(grid, idx));
            && |sorted| == m && Neat(sorted, |grid|)
            && forall a :: 0 <= a < m ==>
                 (sorted[a] < |grid| <==> a < Lesser(m, valid)) &&
                   (sorted[a] < |grid| ==> sorted[a] < valid && sorted[a] in idx)
  {
    var sel, top := Marked(grid, idx), |grid|;
    var sorted := Sort(sel);
    MarkedFine(grid, m, idx, valid);
    SortKeeps(sel, top);
    MarkedCount(grid, idx, valid);
    KeptOrAll(grid, m, idx, valid);
    forall a | 0 <= a < m
      ensures sorted[a] < top <==> a < Lesser(m, valid)
      ensures sorted[a] < top ==> sorted[a] < valid && sorted[a] in idx
    {
      BelowFirst(sorted, top, a);
      assert sorted[a] in sel;
    }
  }

  /** No kept offset is less entropic than a valid one that was dropped. */
  lemma KeptAreTop(grid: seq<Entropy>, m: nat, idx: seq<nat>, valid: nat, o: nat, dropped: nat)
    requires Filled(grid, valid) && IsTop(grid, m, idx)
    requires o in KeptOffsets(grid, idx) && dropped < valid && dropped !in KeptOffsets(grid, idx)
    ensures o < |grid| && !Below(grid[o], grid[dropped])
  {
    KeptShape(grid, m, idx, valid);
    var a :| 0 <= a < m && idx[a] == o;
  }

  function InfiniteOnes(grid: seq<Entropy>, n: nat): (s: set<int>)
    requires n <= |grid|
    ensures forall x :: x in s <==> 0 <= x < n && grid[x].Infinite?
  {
    if n == 0 then {}
    else if grid[n - 1].Infinite? then InfiniteOnes(grid, n - 1) + {n - 1}
    else InfiniteOnes(grid, n - 1)
  }

  /** Boosted offsets are kept, as long as a block has no more of them than it keeps offsets. */
  lemma BoostedAreKept(grid: seq<Entropy>, m: nat, idx: seq<nat>, valid: nat, o: nat)
    requires Filled(grid, valid) && IsTop(grid, m, idx)
    requires o < valid && grid[o].Infinite? && |InfiniteOnes(grid, |grid|)| <= m
    ensures o in KeptOffsets(grid, idx)
  {
    KeptShape(grid, m, idx, valid);
    if o !in idx {
      forall x | x in Entries(idx)
        ensures x in InfiniteOnes(grid, |grid|)
      {
        var a :| 0 <= a < m && idx[a] == x;
        assert !Below(grid[idx[a]], grid[o]);
      }
      DistinctEntries(idx);
      Subset(Entries(idx) + {o}, InfiniteOnes(grid, |grid|));
    }
  }

  // ---------------------------------------------------------------- a sample

  /** Per-token entropies and tokens of a row, and where its response lies. */
  datatype Rollout = Rollout(entropy: seq<real>, tokens: seq<int>, start: nat, response: nat)

  ghost predicate Measured(s: Rollout)
  {
    |s.tokens| == |s.entropy| && s.start + s.response <= |s.entropy| && forall p :: 0 <= p < |s.entropy| ==>
      s.entropy[p] >= 0.0
  }

  /** Entropies of block x; EOS tokens boosted when `eos` is given, -1 beyond the response. */
  function Grid(s: Rollout, block: nat, x: nat, boost: bool, eos: int): seq<Entropy>
    requires |s.tokens| == |s.entropy| && s.start + s.response <= |s.entropy|
  {
    seq(block, o requires 0 <= o => GridAt(s, x * block + o, boost, eos))
  }

  function ResponseToken(s: Rollout, rel: nat): int
    requires rel < s.response && s.start + s.response <= |s.tokens|
  {
    s.tokens[s.start + rel]
  }

  function GridAt(s: Rollout, rel: nat, boost: bool, eos: int): Entropy
    requires |s.tokens| == |s.entropy| && s.start + s.response <= |s.entropy|
  {
    if rel >= s.response then Finite(-1.0)
    else if boost && ResponseToken(s, rel) == eos then Infinite
    else Finite(s.entropy[s.start + rel])
  }

  /** Response tokens in block x: what is left from its first column on, at most a block. */
  function ValidIn(s: Rollout, block: nat, x: nat): (n: nat)
    ensures n <= block && (n > 0 ==> x * block + n <= s.response) && (n < block ==> x * block + n >= s.response)
  {
    if s.response <= x * block then 0
    else if s.response - x * block < block then s.response - x * block
    else block
  }

  lemma GridFilled(s: Rollout, block: nat, x: nat, boost: bool, eos: int)
    requires Measured(s)
    ensures Filled(Grid(s, block, x, boost, eos), ValidIn(s, block, x))
  {
    var base := x * block;
    forall o | 0 <= o < block
      ensures Negative(Grid(s, block, x, boost, eos)[o]) <==> o >= ValidIn(s, block, x)
    {
      assert Grid(s, block, x, boost, eos)[o] == GridAt(s, base + o, boost, eos);
    }
  }

  function TopOffsets(s: Rollout, block: nat, m: nat, blocks: nat, topk: TopK, boost: bool, eos: int): Selection
    requires Measured(s) && Selects(topk) && m <= block
  {
    seq(blocks, x requires 0 <= x =>
      var grid := Grid(s, block, x, boost, eos);
      assert IsTop(grid, m, topk(grid, m));
      KeptOffsets(grid, topk(grid, m)))
  }

  /** Every block of a response has its own place in the selection. */
  lemma BlocksSuffice(longest: nat, block: nat, c: int, offset: int)
    requires block > 0 && 0 <= c - offset < longest
    ensures BlockOf(c, offset, block, Blocks(longest, block)) == (c - offset) / block
  {
    var q, n := (c - offset) / block, (longest + block - 1) / block;
    assert q * block <= c - offset < longest;
    assert (n + 1) * block == n * block + block;
    assert longest + block - 1 < n * block + block;
    MulLess(q, n, block);
  }

  /** For non-negative entropies and any `topk`: the kept offsets of each block are min(m, valid)
      response offsets, ascending and padded by -1, so no block lists one twice. */
  lemma OffsetsShape(s: Rollout, block: nat, m: nat, blocks: nat, topk: TopK, boost: bool, eos: int)
    requires Measured(s) && Selects(topk) && m <= block && blocks > 0
    ensures var sel := TopOffsets(s, block, m, blocks, topk, boost, eos);
            Ranked(sel, m) && Distinct(sel, m)
    ensures forall x :: 0 <= x < blocks ==>
              ShapeOfBlock(TopOffsets(s, block, m, blocks, topk, boost, eos)[x], m, ValidIn(s, block, x))
  {
    var sel := TopOffsets(s, block, m, blocks, topk, boost, eos);
    forall x | 0 <= x < blocks
      ensures |sel[x]| == m && ShapeOfBlock(sel[x], m, ValidIn(s, block, x))
    {
      var grid := Grid(s, block, x, boost, eos);
      GridFilled(s, block, x, boost, eos);
      KeptShape(grid, m, topk(grid, m), ValidIn(s, block, x));
    }
  }

  ghost predicate ShapeOfBlock(r: seq<int>, m: nat, valid: nat)
  {
    && |r| == m
    && (forall a :: 0 <= a < m ==> if a < Lesser(m, valid) then 0 <= r[a] < valid else r[a] == -1)
    && (forall a, b :: 0 <= a < b < Lesser(m, valid) ==> r[a] < r[b])
  }

  /** No kept offset is less entropic than a dropped one, and a boosted EOS is kept whenever its block
      has at most m of them: always, if it is the only one. */
  lemma OffsetsAreTop(s: Rollout, block: nat, m: nat, blocks: nat, topk: TopK, boost: bool, eos: int, x: nat, o: nat)
    requires Measured(s) && Selects(topk) && m <= block && x < blocks && o < ValidIn(s, block, x)
    ensures var grid, kept := Grid(s, block, x, boost, eos), TopOffsets(s, block, m, blocks, topk, boost, eos)[x];
            && (o !in kept ==> forall k: nat :: k in kept ==> k < |grid| && !Below(grid[k], grid[o]))
            && (grid[o].Infinite? && |InfiniteOnes(grid, |grid|)| <= m ==> o in kept)
  {
    var grid := Grid(s, block, x, boost, eos);
    var idx, valid := topk(grid, m), ValidIn(s, block, x);
    GridFilled(s, block, x, boost, eos);
    forall k: nat | k in KeptOffsets(grid, idx) && o !in KeptOffsets(grid, idx)
      ensures k < |grid| && !Below(grid[k], grid[o])
    {
      KeptAreTop(grid, m, idx, valid, k, o);
    }
    if grid[o].Infinite? && |InfiniteOnes(grid, |grid|)| <= m {
      BoostedAreKept(grid, m, idx, valid, o);
    }
  }

  /** Response token a is to be given up before response token b: b is boosted and a is not, or neither is and a has
      the smaller entropy. */
  ghost predicate GivesWay(s: Rollout, boost: bool, eos: int, a: nat, b: nat)
    requires Measured(s) && a < s.response && b < s.response
  {
    var boosted, other := boost && s.tokens[s.start + b] == eos, boost && s.tokens[s.start + a] == eos;
    !other && (boosted || s.entropy[s.start + a] < s.entropy[s.start + b])
  }

  /** Of two response tokens of block x, one whose offset is listed does not give way to one whose offset is not. */
  lemma KeptDoNotGiveWay(s: Rollout, block: nat, m: nat, blocks: nat, topk: TopK, boost: bool, eos: int,
      x: nat, o: nat, d: nat)
    requires Measured(s) && Selects(topk) && m <= block && x < blocks
    requires o < block && d < block && x * block + o < s.response && x * block + d < s.response
    requires var kept := TopOffsets(s, block, m, blocks, topk, boost, eos)[x]; o in kept && d !in kept
    ensures !GivesWay(s, boost, eos, x * block + o, x * block + d)
  {
    var grid := Grid(s, block, x, boost, eos);
    OffsetsAreTop(s, block, m, blocks, topk, boost, eos, x, d);
    assert !Below(grid[o], grid[d]);
    assert grid[o] == GridAt(s, x * block + o, boost, eos) && grid[d] == GridAt(s, x * block + d, boost, eos);
  }

  /** A response with one EOS keeps it in every selection of at least one offset per block. */
  lemma SoleEosIsKept(s: Rollout, block: nat, m: nat, blocks: nat, topk: TopK, eos: int, x: nat, o: nat)
    requires Measured(s) && Selects(topk) && 1 <= m <= block && x < blocks && o < ValidIn(s, block, x)
    requires ResponseToken(s, x * block + o) == eos
    requires forall r :: 0 <= r < s.response && r != x * block + o ==> ResponseToken(s, r) != eos
    ensures o in TopOffsets(s, block, m, blocks, topk, true, eos)[x]
  {
    var grid := Grid(s, block, x, true, eos);
    forall y | y in InfiniteOnes(grid, |grid|)
      ensures y == o
    {
      assert GridAt(s, x * block + y, true, eos).Infinite?;
    }
    assert InfiniteOnes(grid, |grid|) <= {o as int};
    Subset(InfiniteOnes(grid, |grid|), {o as int});
    assert grid[o] == GridAt(s, x * block + o, true, eos);
    OffsetsAreTop(s, block, m, blocks, topk, true, eos, x, o);
  }
}
