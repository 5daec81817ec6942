/** The block-aware ELBO of ESPO (nemo_rl/algorithms/espo_logprobs.py, lines 75-186): per-block sums of
    harvested log probabilities, reweighted by block length over harvested count. */
module BlockAwareElbo {
  import opened Arithmetic

  /** One sequence: log probabilities and harvest mask of the noisy segment, response length. */
  datatype Sequence = Sequence(logprobs: seq<real>, harvest: seq<bool>, length: nat)

  ghost predicate Fits(s: Sequence, offset: nat)
  {
    |s.harvest| == |s.logprobs| && offset + s.length <= |s.logprobs|
  }

  function BlockOf(c: nat, offset: nat, block: nat): int
    requires block > 0
  {
    if c < offset then -1 else (c - offset) / block
  }

  predicate InResponse(s: Sequence, offset: nat, c: nat)
  {
    offset <= c < offset + s.length
  }

  /** Sum over the columns before n that lie in response block b. */
  function BlockSum(values: seq<real>, s: Sequence, offset: nat, block: nat, b: nat, n: nat): real
    requires block > 0 && n <= |values|
  {
    if n == 0 then 0.0
    else BlockSum(values, s, offset, block, b, n - 1)
         + (if InResponse(s, offset, n - 1) && BlockOf(n - 1, offset, block) == b then values[n - 1] else 0.0)
  }

  function Ones(n: nat): (r: seq<real>)
    ensures |r| == n && forall i :: 0 <= i < n ==> r[i] == 1.0
  {
    seq(n, _ => 1.0)
  }

  function Harvested(s: Sequence): (r: seq<real>)
    requires |s.harvest| == |s.logprobs|
    ensures |r| == |s.logprobs|
  {
    seq(|s.harvest|, c requires 0 <= c < |s.harvest| => if s.harvest[c] then 1.0 else 0.0)
  }

  function HarvestedLogprobs(s: Sequence): (r: seq<real>)
    requires |s.harvest| == |s.logprobs|
    ensures |r| == |s.logprobs|
  {
    seq(|s.harvest|, c requires 0 <= c < |s.harvest| => if s.harvest[c] then s.logprobs[c] else 0.0)
  }

  function Length(s: Sequence, offset: nat, block: nat, b: nat): real
    requires block > 0
  {
    BlockSum(Ones(|s.logprobs|), s, offset, block, b, |s.logprobs|)
  }

  function Count(s: Sequence, offset: nat, block: nat, b: nat): real
    requires block > 0 && |s.harvest| == |s.logprobs|
  {
    BlockSum(Harvested(s), s, offset, block, b, |s.logprobs|)
  }

  function LogSum(s: Sequence, offset: nat, block: nat, b: nat): real
    requires block > 0 && |s.harvest| == |s.logprobs|
  {
    BlockSum(HarvestedLogprobs(s), s, offset, block, b, |s.logprobs|)
  }

  function AtLeastOne(x: real): (y: real)
    ensures y >= 1.0
  {
    if x < 1.0 then 1.0 else x
  }

  function BlockElbo(s: Sequence, offset: nat, block: nat, b: nat): real
    requires block > 0 && |s.harvest| == |s.logprobs|
  {
    if Count(s, offset, block, b) > 0.0
    then Length(s, offset, block, b) / AtLeastOne(Count(s, offset, block, b)) * LogSum(s, offset, block, b)
    else 0.0
  }

  /** Blocks before `blocks`, added up. */
  function Elbo(s: Sequence, offset: nat, block: nat, blocks: nat): real
    requires block > 0 && |s.harvest| == |s.logprobs|
  {
    if blocks == 0 then 0.0 else Elbo(s, offset, block, blocks - 1) + BlockElbo(s, offset, block, blocks - 1)
  }

  // ---------------------------------------------------------------- the value, token by token

  /** Column c holds a response token, and one of block b. */
  predicate IsToken(s: Sequence, offset: nat, block: nat, b: nat, c: int)
  {
    offset <= c < offset + s.length && b * block <= c - offset < b * block + block
  }

  /** Response tokens of block b, as columns. */
  ghost function Tokens(s: Sequence, offset: nat, block: nat, b: nat): set<int>
  {
    set c | 0 <= c < |s.logprobs| && IsToken(s, offset, block, b, c)
  }

  /** Those of them that the mask harvests. */
  ghost function HarvestedTokens(s: Sequence, offset: nat, block: nat, b: nat): set<int>
    requires |s.harvest| == |s.logprobs|
  {
    set c | c in Tokens(s, offset, block, b) && 0 <= c < |s.harvest| && s.harvest[c]
  }

  /** The values at the columns of a set, added up. */
  ghost function SumIn(values: seq<real>, cs: set<int>, n: nat): real
    requires n <= |values|
  {
    if n == 0 then 0.0 else SumIn(values, cs, n - 1) + (if n - 1 in cs then values[n - 1] else 0.0)
  }

  function SumAll(xs: seq<real>): real
  {
    if xs == [] then 0.0 else SumAll(xs[..|xs| - 1]) + xs[|xs| - 1]
  }

  /** What block b contributes: the sum of its harvested log probabilities times its tokens per harvested one; a
      block without a harvested token contributes nothing. */
  ghost predicate IsBlockValue(s: Sequence, offset: nat, block: nat, b: nat, x: real)
    requires |s.harvest| == |s.logprobs|
  {
    var tokens, harvested := Tokens(s, offset, block, b), HarvestedTokens(s, offset, block, b);
    if harvested == {} then x == 0.0
    else x * |harvested| as real == |tokens| as real * SumIn(s.logprobs, harvested, |s.logprobs|)
  }

  /** The ELBO of one mask: the values of blocks that cover the response, added up. */
  ghost predicate IsElbo(s: Sequence, offset: nat, block: nat, x: real)
    requires |s.harvest| == |s.logprobs|
  {
    exists parts: seq<real> :: |parts| * block >= s.length && x == SumAll(parts) &&
      forall b: nat :: b < |parts| ==> IsBlockValue(s, offset, block, b, parts[b])
  }

  lemma InBlock(c: int, offset: nat, block: nat, b: nat)
    requires block > 0 && c >= offset
    ensures BlockOf(c, offset, block) == b <==> b * block <= c - offset < b * block + block
  {
    var q := (c - offset) / block;
    assert q * block <= c - offset < q * block + block;
    if b * block <= c - offset < b * block + block {
      Quotient(c - offset, block, b);
    }
  }

  /** Members of a set of columns that lie below n. */
  ghost function Below(cs: set<int>, n: nat): set<int>
  {
    set c | c in cs && c < n
  }

  lemma OneBelow(cs: set<int>, n: nat)
    ensures |Below(cs, n + 1)| == |Below(cs, n)| + (if n in cs then 1 else 0)
  {
    if n in cs {
      assert Below(cs, n + 1) == Below(cs, n) + {n};
    } else {
      assert Below(cs, n + 1) == Below(cs, n);
    }
  }

  /** The sums of the code, over sets. */
  lemma {:induction false} SumsOverSets(s: Sequence, offset: nat, block: nat, b: nat, n: nat)
    requires block > 0 && |s.harvest| == |s.logprobs| && n <= |s.logprobs|
    ensures BlockSum(Ones(|s.logprobs|), s, offset, block, b, n) == |Below(Tokens(s, offset, block, b), n)| as real
    ensures BlockSum(Harvested(s), s, offset, block, b, n) == |Below(HarvestedTokens(s, offset, block, b), n)| as real
    ensures BlockSum(HarvestedLogprobs(s), s, offset, block, b, n)
         == SumIn(s.logprobs, HarvestedTokens(s, offset, block, b), n)
  {
    var tokens, harvested := Tokens(s, offset, block, b), HarvestedTokens(s, offset, block, b);
    if n == 0 {
      assert Below(tokens, 0) == {} && Below(harvested, 0) == {};
    } else {
      SumsOverSets(s, offset, block, b, n - 1);
      OneBelow(tokens, n - 1);
      OneBelow(harvested, n - 1);
      if InResponse(s, offset, n - 1) {
        InBlock(n - 1, offset, block, b);
      }
    }
  }

  lemma BlockElboIs(s: Sequence, offset: nat, block: nat, b: nat)
    requires block > 0 && |s.harvest| == |s.logprobs|
    ensures IsBlockValue(s, offset, block, b, BlockElbo(s, offset, block, b))
  {
    var tokens, harvested := Tokens(s, offset, block, b), HarvestedTokens(s, offset, block, b);
    SumsOverSets(s, offset, block, b, |s.logprobs|);
    assert Below(tokens, |s.logprobs|) == tokens && Below(harvested, |s.logprobs|) == harvested;
    if harvested != {} {
      CrossMultiplied(Length(s, offset, block, b), Count(s, offset, block, b), LogSum(s, offset, block, b));
    }
  }

  lemma CrossMultiplied(length: real, count: real, sum: real)
    requires count >= 1.0
    ensures length / AtLeastOne(count) * sum * count == length * sum
  {
    var w := length / count;
    assert w * count == length;
    assert w * sum * count == w * count * sum;
  }

  function Parts(s: Sequence, offset: nat, block: nat, blocks: nat): (parts: seq<real>)
    requires block > 0 && |s.harvest| == |s.logprobs|
    ensures |parts| == blocks
  {
    seq(blocks, b requires 0 <= b => BlockElbo(s, offset, block, b))
  }

  lemma {:induction false} PartsAddUp(s: Sequence, offset: nat, block: nat, blocks: nat)
    requires block > 0 && |s.harvest| == |s.logprobs|
    ensures SumAll(Parts(s, offset, block, blocks)) == Elbo(s, offset, block, blocks)
  {
    if blocks > 0 {
      PartsAddUp(s, offset, block, blocks - 1);
      assert Parts(s, offset, block, blocks)[..blocks - 1] == Parts(s, offset, block, blocks - 1);
    }
  }

  lemma ElboIs(s: Sequence, offset: nat, block: nat, longest: nat)
    requires block > 0 && |s.harvest| == |s.logprobs| && s.length <= longest
    ensures IsElbo(s, offset, block, Elbo(s, offset, block, Blocks(longest, block)))
  {
    var n := Blocks(longest, block);
    var parts := Parts(s, offset, block, n);
    PartsAddUp(s, offset, block, n);
    BlocksCover(longest, block);
    forall b: nat | b < |parts|
      ensures IsBlockValue(s, offset, block, b, parts[b])
    {
      BlockElboIs(s, offset, block, b);
    }
  }

  lemma BlocksCover(longest: nat, block: nat)
    requires block > 0
    ensures Blocks(longest, block) * block >= longest
  {
    var n := (longest + block - 1) / block;
    assert longest + block - 1 < n * block + block;
  }

  /** With a single harvested token in a block, the block contributes that token's log probability once for each
      of its tokens. */
  lemma SingleHarvest(s: Sequence, offset: nat, block: nat, b: nat, c: nat, x: real)
    requires |s.harvest| == |s.logprobs| && c < |s.logprobs| && HarvestedTokens(s, offset, block, b) == {c as int}
    requires IsBlockValue(s, offset, block, b, x)
    ensures x == |Tokens(s, offset, block, b)| as real * s.logprobs[c]
  {
    SumOfOne(s.logprobs, c, |s.logprobs|);
  }

  lemma {:induction false} SumOfOne(values: seq<real>, c: nat, n: nat)
    requires c < |values| && n <= |values|
    ensures SumIn(values, {c as int}, n) == if c < n then values[c] else 0.0
  {
    if n > 0 {
      SumOfOne(values, c, n - 1);
    }
  }

  // ---------------------------------------------------------------- bounds

  ghost predicate Bounded(s: Sequence, lo: real)
  {
    forall c :: 0 <= c < |s.logprobs| ==> lo <= s.logprobs[c] <= 0.0
  }

  /** Between zero and `lo` times the harvested count; a count is 0 or at least 1. */
  lemma {:induction false} SumsBounded(s: Sequence, offset: nat, block: nat, b: nat, lo: real, n: nat)
    requires block > 0 && |s.harvest| == |s.logprobs| && Bounded(s, lo) && lo <= 0.0 && n <= |s.logprobs|
    ensures var m := BlockSum(Harvested(s), s, offset, block, b, n);
            && (m == 0.0 || m >= 1.0) && m * lo <= BlockSum(HarvestedLogprobs(s), s, offset, block, b, n) <= 0.0
    ensures BlockSum(Ones(|s.logprobs|), s, offset, block, b, n) >= 0.0
  {
    if n > 0 {
      SumsBounded(s, offset, block, b, lo, n - 1);
      var m := BlockSum(Harvested(s), s, offset, block, b, n - 1);
      assert (m + 1.0) * lo == m * lo + lo;
    }
  }

  lemma Reweighted(length: real, count: real, sum: real, lo: real)
    requires length >= 0.0 && count >= 1.0 && count * lo <= sum <= 0.0
    ensures length * lo <= length / count * sum <= 0.0
  {
    var w := length / count;
    assert w >= 0.0 && w * count == length;
    assert w * (count * lo) == length * lo;
    assert w * (sum - count * lo) >= 0.0;
    assert w * sum <= 0.0;
  }

  lemma BlockBounded(s: Sequence, offset: nat, block: nat, b: nat, lo: real)
    requires block > 0 && |s.harvest| == |s.logprobs| && Bounded(s, lo) && lo <= 0.0
    ensures Length(s, offset, block, b) >= 0.0
    ensures Length(s, offset, block, b) * lo <= BlockElbo(s, offset, block, b) <= 0.0
  {
    SumsBounded(s, offset, block, b, lo, |s.logprobs|);
    if Count(s, offset, block, b) > 0.0 {
      Reweighted(Length(s, offset, block, b), Count(s, offset, block, b), LogSum(s, offset, block, b), lo);
    } else {
      assert Length(s, offset, block, b) * lo <= 0.0;
    }
  }

  /** Columns of the blocks before `blocks`. */
  function LengthSum(s: Sequence, offset: nat, block: nat, blocks: nat, n: nat): real
    requires block > 0 && n <= |s.logprobs|
  {
    if blocks == 0 then 0.0
    else LengthSum(s, offset, block, blocks - 1, n) + BlockSum(Ones(|s.logprobs|), s, offset, block, blocks - 1, n)
  }

  lemma {:induction false} ElboBounded(s: Sequence, offset: nat, block: nat, blocks: nat, lo: real)
    requires block > 0 && |s.harvest| == |s.logprobs| && Bounded(s, lo) && lo <= 0.0
    ensures LengthSum(s, offset, block, blocks, |s.logprobs|) * lo <= Elbo(s, offset, block, blocks) <= 0.0
  {
    if blocks > 0 {
      ElboBounded(s, offset, block, blocks - 1, lo);
      BlockBounded(s, offset, block, blocks - 1, lo);
      Distribute(LengthSum(s, offset, block, blocks - 1, |s.logprobs|), Length(s, offset, block, blocks - 1), lo);
    }
  }

  lemma Distribute(a: real, b: real, lo: real)
    ensures (a + b) * lo == a * lo + b * lo
  {
  }

  /** One column counts in one block. */
  lemma {:induction false} OneColumn(s: Sequence, offset: nat, block: nat, blocks: nat, n: nat)
    requires block > 0 && n < |s.logprobs|
    ensures LengthSum(s, offset, block, blocks, n + 1) == LengthSum(s, offset, block, blocks, n)
            + (if InResponse(s, offset, n) && 0 <= BlockOf(n, offset, block) < blocks then 1.0 else 0.0)
  {
    if blocks > 0 {
      OneColumn(s, offset, block, blocks - 1, n);
    }
  }

  lemma {:induction false} NoColumns(s: Sequence, offset: nat, block: nat, blocks: nat)
    requires block > 0
    ensures LengthSum(s, offset, block, blocks, 0) == 0.0
  {
    if blocks > 0 {
      NoColumns(s, offset, block, blocks - 1);
    }
  }

  lemma InSomeBlock(c: nat, offset: nat, block: nat, longest: nat)
    requires block > 0 && offset <= c < offset + longest
    ensures 0 <= BlockOf(c, offset, block) < Blocks(longest, block)
  {
    var q, n := (c - offset) / block, (longest + block - 1) / block;
    assert q * block <= c - offset;
    assert longest + block - 1 < n * block + block;
    MulLess(q, n, block);
  }

  /** The block lengths of a sequence add up to its response length. */
  lemma {:induction false} LengthsAddUp(s: Sequence, offset: nat, block: nat, longest: nat, n: nat)
    requires block > 0 && s.length <= longest && n <= |s.logprobs|
    ensures LengthSum(s, offset, block, Blocks(longest, block), n)
         == if n <= offset then 0.0 else if n <= offset + s.length then (n - offset) as real else s.length as real
  {
    if n == 0 {
      NoColumns(s, offset, block, Blocks(longest, block));
    } else {
      LengthsAddUp(s, offset, block, longest, n - 1);
      OneColumn(s, offset, block, Blocks(longest, block), n - 1);
      if InResponse(s, offset, n - 1) {
        InSomeBlock(n - 1, offset, block, longest);
      }
    }
  }

  /** `lo` for every response token. */
  function LengthFloor(length: nat, lo: real): real
  {
    length as real * lo
  }

  /** One mask: with log probabilities in [lo, 0], the ELBO lies between `lo` per response token and 0,
      whatever the harvest mask. */
  lemma ElboWithinLength(s: Sequence, offset: nat, block: nat, longest: nat, lo: real)
    requires block > 0 && Fits(s, offset) && s.length <= longest && Bounded(s, lo) && lo <= 0.0
    ensures LengthFloor(s.length, lo) <= Elbo(s, offset, block, Blocks(longest, block)) <= 0.0
  {
    ElboBounded(s, offset, block, Blocks(longest, block), lo);
    LengthsAddUp(s, offset, block, longest, |s.logprobs|);
  }

  // ---------------------------------------------------------------- several masks

  function ElboSum(levels: seq<Sequence>, offset: nat, block: nat, longest: nat): real
    requires block > 0 && forall j :: 0 <= j < |levels| ==> |levels[j].harvest| == |levels[j].logprobs|
  {
    if levels == [] then 0.0
    else
      var last := Elbo(levels[|levels| - 1], offset, block, Blocks(longest, block));
      ElboSum(levels[..|levels| - 1], offset, block, longest) + last
  }

  /** The masks of one sequence: same length, all inside the noisy segment, log probabilities in [lo, 0]. */
  ghost predicate Masks(levels: seq<Sequence>, offset: nat, length: nat, lo: real)
  {
    forall j :: 0 <= j < |levels| ==>
      |levels[j].harvest| == |levels[j].logprobs| && Fits(levels[j], offset) && levels[j].length == length &&
        Bounded(levels[j], lo)
  }

  function Repeated(n: nat, x: real): real
  {
    if n == 0 then 0.0 else Repeated(n - 1, x) + x
  }

  lemma {:induction false} RepeatedIsProduct(n: nat, x: real)
    ensures Repeated(n, x) == n as real * x
  {
    if n > 0 {
      RepeatedIsProduct(n - 1, x);
      Distribute((n - 1) as real, 1.0, x);
    }
  }

  lemma {:induction false} SumWithin(levels: seq<Sequence>, offset: nat, block: nat, longest: nat, length: nat,
      lo: real)
    requires block > 0 && length <= longest && lo <= 0.0 && Masks(levels, offset, length, lo)
    ensures Repeated(|levels|, LengthFloor(length, lo)) <= ElboSum(levels, offset, block, longest) <= 0.0
  {
    if levels != [] {
      SumWithin(levels[..|levels| - 1], offset, block, longest, length, lo);
      ElboWithinLength(levels[|levels| - 1], offset, block, longest, lo);
    }
  }

  /** Averaging n sums and dividing by the length keeps the per-token bound. */
  lemma AverageWithin(sum: real, n: nat, length: nat, lo: real)
    requires n > 0 && lo <= 0.0 && Repeated(n, LengthFloor(length, lo)) <= sum <= 0.0
    ensures var elbo := sum / n as real;
            && elbo * n as real == sum
            && elbo / AtLeastOne(length as real) * AtLeastOne(length as real) == elbo
            && lo <= elbo / AtLeastOne(length as real) <= 0.0
  {
    var elbo := sum / n as real;
    RepeatedIsProduct(n, LengthFloor(length, lo));
    FloorBelow(length, lo);
    DividedBounds(sum, n as real, LengthFloor(length, lo));
    DividedBounds(elbo, AtLeastOne(length as real), lo);
  }

  lemma FloorBelow(length: nat, lo: real)
    requires lo <= 0.0
    ensures AtLeastOne(length as real) * lo <= LengthFloor(length, lo) <= 0.0
  {
  }

  lemma DividedBounds(x: real, d: real, lo: real)
    requires d >= 1.0 && lo <= 0.0 && d * lo <= x <= 0.0
    ensures lo <= x / d <= 0.0 && x / d * d == x
  {
    var q := x / d;
    assert q * d == x;
    assert (q - lo) * d >= 0.0;
  }

  datatype Averaged = NoMask | Averaged(elbo: real, perToken: real)

  /** The running sum over the masks. */
  method SumMasks(levels: seq<Sequence>, offset: nat, block: nat, longest: nat) returns (sum: real)
    requires block > 0 && forall j :: 0 <= j < |levels| ==> |levels[j].harvest| == |levels[j].logprobs|
    ensures sum == ElboSum(levels, offset, block, longest)
  {
    sum := 0.0;
    for j := 0 to |levels|
      invariant sum == ElboSum(levels[..j], offset, block, longest)
    {
      assert levels[..j + 1][..j] == levels[..j];
      sum := sum + Elbo(levels[j], offset, block, Blocks(longest, block));
    }
    assert levels[..|levels|] == levels;
  }

  /** What the caller gets: the average of the masks' sums, and that average per response token. */
  ghost predicate IsAverage(r: Averaged, sum: real, n: nat, length: nat)
  {
    r.Averaged? && r.elbo * n as real == sum && r.perToken * AtLeastOne(length as real) == r.elbo
  }

  function Times(x: real, n: nat): real
  {
    x * n as real
  }

  lemma AverageOf(r: Averaged, sum: real, n: nat, length: nat)
    requires IsAverage(r, sum, n, length)
    ensures sum == Times(r.elbo, n) && r.elbo == Times(r.perToken, if length == 0 then 1 else length)
  {
  }

  lemma ElboSumIsSum(levels: seq<Sequence>, offset: nat, block: nat, longest: nat)
    requires block > 0 && forall j :: 0 <= j < |levels| ==> |levels[j].harvest| == |levels[j].logprobs|
    requires forall j :: 0 <= j < |levels| ==> levels[j].length <= longest
    ensures IsElboSum(levels, offset, block, ElboSum(levels, offset, block, longest))
  {
    var elbos := ElboSumIs(levels, offset, block, longest);
  }

  /** The ELBOs of the masks, added up. */
  ghost predicate IsElboSum(levels: seq<Sequence>, offset: nat, block: nat, sum: real)
    requires forall j :: 0 <= j < |levels| ==> |levels[j].harvest| == |levels[j].logprobs|
  {
    exists elbos: seq<real> :: |elbos| == |levels| && sum == SumAll(elbos) &&
      forall j :: 0 <= j < |levels| ==> IsElbo(levels[j], offset, block, elbos[j])
  }

  lemma {:induction false} ElboSumIs(levels: seq<Sequence>, offset: nat, block: nat, longest: nat)
    returns (elbos: seq<real>)
    requires block > 0 && forall j :: 0 <= j < |levels| ==> |levels[j].harvest| == |levels[j].logprobs|
    requires forall j :: 0 <= j < |levels| ==> levels[j].length <= longest
    ensures |elbos| == |levels| && ElboSum(levels, offset, block, longest) == SumAll(elbos)
    ensures forall j :: 0 <= j < |levels| ==> IsElbo(levels[j], offset, block, elbos[j])
  {
    if levels == [] {
      elbos := [];
    } else {
      var n := |levels| - 1;
      var before := ElboSumIs(levels[..n], offset, block, longest);
      ElboIs(levels[n], offset, block, longest);
      var last := Elbo(levels[n], offset, block, Blocks(longest, block));
      elbos := before + [last];
      assert elbos[..n] == before;
      forall j | 0 <= j < |levels|
        ensures IsElbo(levels[j], offset, block, elbos[j])
      {
        assert j < n ==> levels[..n][j] == levels[j];
      }
    }
  }

  /** `compute_coupled_block_aware_elbo` for one sequence: the masks' ELBOs are averaged, then divided by
      the response length.  With log probabilities in [lo, 0] the result stays in [lo, 0]. */
  method CoupledElbo(levels: seq<Sequence>, offset: nat, block: nat, longest: nat, length: nat, ghost lo: real)
    returns (r: Averaged)
    requires block > 0 && length <= longest && lo <= 0.0 && Masks(levels, offset, length, lo)
    ensures r == NoMask <==> levels == []
    ensures r != NoMask ==> IsElboSum(levels, offset, block, Times(r.elbo, |levels|))
    ensures r != NoMask ==> r.elbo == Times(r.perToken, if length == 0 then 1 else length)
    ensures r != NoMask ==> lo <= r.perToken <= 0.0
  {
    if levels == [] {
      return NoMask;
    }
    var sum := SumMasks(levels, offset, block, longest);
    ElboSumIsSum(levels, offset, block, longest);
    SumWithin(levels, offset, block, longest, length, lo);
    r := Divided(sum, |levels|, length, lo);
    AverageOf(r, sum, |levels|, length);
  }

  method Divided(sum: real, n: nat, length: nat, ghost lo: real) returns (r: Averaged)
    requires n > 0 && lo <= 0.0 && Repeated(n, LengthFloor(length, lo)) <= sum <= 0.0
    ensures IsAverage(r, sum, n, length) && lo <= r.perToken <= 0.0
  {
    var elbo := sum / n as real;
    AverageWithin(sum, n, length, lo);
    r := Averaged(elbo, elbo / AtLeastOne(length as real));
  }
}
