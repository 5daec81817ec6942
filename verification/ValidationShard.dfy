/** `select_validation_shard` (examples/eval_grpo_checkpoint_validation.py, lines 191-218): every
    validation batch is cut into one contiguous chunk per rank. */
module ValidationShard {
  import opened Arithmetic

  datatype Result<T> = Ok(value: T) | BadDpSize | BadRank | BadBatchSize

  function BatchLength(n: nat, batch: nat, start: nat): nat
    requires start <= n
  {
    if n - start < batch then n - start else batch
  }

  function ShardSize(length: nat, dp: nat): nat
    requires dp > 0
  {
    (length + dp - 1) / dp
  }

  /** The least whole number with which dp shares cover a length. */
  predicate IsCeiling(size: nat, length: nat, dp: nat)
  {
    size * dp >= length && (size > 0 ==> (size - 1) * dp < length)
  }

  lemma ShardSizeIsCeiling(length: nat, dp: nat)
    requires dp > 0
    ensures IsCeiling(ShardSize(length, dp), length, dp)
  {
    var q := (length + dp - 1) / dp;
    assert (q + 1) * dp == q * dp + dp;
    assert q * dp <= length + dp - 1 < q * dp + dp;
    MulStep(q, dp);
  }

  lemma OneCeiling(a: nat, b: nat, length: nat, dp: nat)
    requires dp > 0 && IsCeiling(a, length, dp) && IsCeiling(b, length, dp)
    ensures a == b
  {
    if a > 0 {
      MulLess(a - 1, b, dp);
    }
    if b > 0 {
      MulLess(b - 1, a, dp);
    }
  }

  /** Python's `xs[lo:hi]`, for non-negative bounds. */
  function Slice<T>(xs: seq<T>, lo: nat, hi: nat): seq<T>
  {
    var h := if hi < |xs| then hi else |xs|;
    if lo < h then xs[lo..h] else []
  }

  /** The rank that gets sample i of n. */
  function Owner(n: nat, batch: nat, dp: nat, i: nat): nat
    requires i < n && batch > 0 && dp > 0
  {
    StartBelow(i, batch);
    i % batch / OwnerSize(n, batch, dp, i)
  }

  function OwnerSize(n: nat, batch: nat, dp: nat, i: nat): (size: nat)
    requires i < n && batch > 0 && dp > 0
    ensures size > 0
  {
    StartBelow(i, batch);
    SizePositive(BatchLength(n, batch, i / batch * batch), dp);
    ShardSize(BatchLength(n, batch, i / batch * batch), dp)
  }

  lemma StartBelow(i: nat, batch: nat)
    requires batch > 0
    ensures i / batch * batch <= i && i == i / batch * batch + i % batch
  {
  }

  lemma SizePositive(length: nat, dp: nat)
    requires length > 0 && dp > 0
    ensures ShardSize(length, dp) > 0 && ShardSize(length, dp) * dp >= length
  {
    var q := (length + dp - 1) / dp;
    assert (q + 1) * dp == q * dp + dp;
    assert length + dp - 1 < q * dp + dp;
    MulLess(0, q, dp);
  }

  /** Every sample belongs to one of the ranks. */
  lemma OwnerIsRank(n: nat, batch: nat, dp: nat, i: nat)
    requires i < n && batch > 0 && dp > 0
    ensures Owner(n, batch, dp, i) < dp
  {
    StartBelow(i, batch);
    var length := BatchLength(n, batch, i / batch * batch);
    var size := ShardSize(length, dp);
    SizePositive(length, dp);
    var w := i % batch;
    assert w < length <= size * dp;
    assert w / size * size <= w;
    MulLess(w / size, dp, size);
  }

  /** The samples of one rank. */
  ghost function Mine(n: nat, batch: nat, dp: nat, rank: nat): (s: set<int>)
    requires batch > 0 && dp > 0
    ensures forall i :: i in s <==> 0 <= i < n && Owner(n, batch, dp, i) == rank
  {
    set i | 0 <= i < n && Owner(n, batch, dp, i) == rank
  }

  /** Exactly the samples of `mine` with lo <= index < hi, each once and in order. */
  ghost predicate Lists<T>(shard: seq<(int, T)>, samples: seq<T>, mine: set<int>, lo: nat, hi: nat)
  {
    && (forall a, b :: 0 <= a < b < |shard| ==> shard[a].0 < shard[b].0)
    && (forall a :: 0 <= a < |shard| ==>
         lo <= shard[a].0 < hi && shard[a].0 < |samples| && shard[a].1 == samples[shard[a].0])
    && (forall a :: 0 <= a < |shard| ==> shard[a].0 in mine)
    && (forall i :: lo <= i < |samples| && i < hi && i in mine ==> (i, samples[i]) in shard)
  }

  ghost predicate IsShard<T>(shard: seq<(int, T)>, samples: seq<T>, batch: nat, dp: nat, rank: nat)
    requires batch > 0 && dp > 0
  {
    Lists(shard, samples, Mine(|samples|, batch, dp, rank), 0, |samples|)
  }

  function Indexed<T>(samples: seq<T>): seq<(int, T)>
  {
    seq(|samples|, i requires 0 <= i < |samples| => (i, samples[i]))
  }

  /** In the batch that starts at s, the rank's chunk is where the owner is the rank. */
  lemma OwnerInBatch(n: nat, batch: nat, dp: nat, c: nat, w: nat, rank: nat)
    requires batch > 0 && dp > 0 && c * batch + w < n && w < batch
    ensures var size := ShardSize(BatchLength(n, batch, c * batch), dp);
            Owner(n, batch, dp, c * batch + w) == rank <==> rank * size <= w < rank * size + size
  {
    var i := c * batch + w;
    Quotient(i, batch, c);
    var size := OwnerSize(n, batch, dp, i);
    assert w / size * size <= w < w / size * size + size;
    if rank * size <= w < rank * size + size {
      Quotient(w, size, rank);
    }
  }

  /** Sample i lies in the c-th batch, whose shares are `size` long, and in the rank's share of it. */
  ghost predicate InShare(n: nat, batch: nat, dp: nat, rank: nat, i: nat, c: nat, size: nat)
  {
    && c * batch <= i < c * batch + batch && i < n
    && IsCeiling(size, if n - c * batch < batch then n - c * batch else batch, dp)
    && rank * size <= i - c * batch < rank * size + size
  }

  ghost predicate Owns(n: nat, batch: nat, dp: nat, rank: nat, i: nat)
  {
    exists c: nat, size: nat :: InShare(n, batch, dp, rank, i, c, size)
  }

  lemma OwnsExactly(n: nat, batch: nat, dp: nat, rank: nat, i: nat)
    requires batch > 0 && dp > 0 && i < n
    ensures Owns(n, batch, dp, rank, i) <==> Owner(n, batch, dp, i) == rank
  {
    var c := i / batch;
    StartBelow(i, batch);
    var size := ShardSize(BatchLength(n, batch, c * batch), dp);
    ShardSizeIsCeiling(BatchLength(n, batch, c * batch), dp);
    OwnerInBatch(n, batch, dp, c, i % batch, rank);
    if Owner(n, batch, dp, i) == rank {
      assert InShare(n, batch, dp, rank, i, c, size);
    }
    if Owns(n, batch, dp, rank, i) {
      var d: nat, other: nat :| InShare(n, batch, dp, rank, i, d, other);
      Quotient(i, batch, d);
      OneCeiling(size, other, BatchLength(n, batch, c * batch), dp);
    }
  }

  /** The shard of a rank: of every batch its contiguous share, in order, each sample with its index. */
  ghost predicate IsShareOf<T>(shard: seq<(int, T)>, samples: seq<T>, batch: nat, dp: nat, rank: nat)
  {
    && (forall a, b :: 0 <= a < b < |shard| ==> shard[a].0 < shard[b].0)
    && (forall a :: 0 <= a < |shard| ==>
          && 0 <= shard[a].0 < |samples| && shard[a].1 == samples[shard[a].0]
          && Owns(|samples|, batch, dp, rank, shard[a].0))
    && (forall i: nat :: i < |samples| && Owns(|samples|, batch, dp, rank, i) ==> (i as int, samples[i]) in shard)
  }

  lemma ShardIsShare<T>(shard: seq<(int, T)>, samples: seq<T>, batch: nat, dp: nat, rank: nat)
    requires batch > 0 && dp > 0 && IsShard(shard, samples, batch, dp, rank)
    ensures IsShareOf(shard, samples, batch, dp, rank)
  {
    forall i: nat | i < |samples|
      ensures Owns(|samples|, batch, dp, rank, i) <==> Owner(|samples|, batch, dp, i) == rank
    {
      OwnsExactly(|samples|, batch, dp, rank, i);
    }
  }

  method SelectValidationShard<T>(samples: seq<T>, batch: int, dp: int, rank: int) returns (r: Result<seq<(int, T)>>)
    ensures r == BadDpSize <==> dp < 1
    ensures r == BadRank <==> dp >= 1 && !(0 <= rank < dp)
    ensures r == BadBatchSize <==> dp >= 1 && 0 <= rank < dp && batch < 1
    ensures r.Ok? ==> IsShard(r.value, samples, batch, dp, rank)
    ensures r.Ok? ==> IsShareOf(r.value, samples, batch, dp, rank)
  {
    if dp < 1 {
      return BadDpSize;
    }
    if rank < 0 || rank >= dp {
      return BadRank;
    }
    if batch < 1 {
      return BadBatchSize;
    }
    var n, indexed := |samples|, Indexed(samples);
    if dp == 1 {
      OneRank(samples, batch);
      ShardIsShare(indexed, samples, batch, dp, rank);
      return Ok(indexed);
    }
    var selected: seq<(int, T)> := [];
    var start := 0;
    ghost var c: nat := 0;
    while start < n
      invariant start == c * batch
      invariant Lists(selected, samples, Mine(n, batch, dp, rank), 0, start)
    {
      var length := BatchLength(n, batch, start);
      var current := indexed[start..start + length];
      var chunk := RankSlice(current, ShardSize(length, dp), rank);
      ChunkLists(samples, chunk, batch, dp, rank, c, start);
      NextChunk(samples, selected, chunk, Mine(n, batch, dp, rank), start, start + batch);
      selected := selected + chunk;
      c := c + 1;
      MulStep(c, batch);
      start := start + batch;
    }
    ShardIsShare(selected, samples, batch, dp, rank);
    r := Ok(selected);
  }

  /** `batch[start:end]` for a rank. */
  function RankSlice<T>(current: seq<T>, size: nat, rank: nat): seq<T>
  {
    var lo: nat := rank * size;
    Slice(current, lo, if lo + size < |current| then lo + size else |current|)
  }

  lemma ChunkLists<T>(samples: seq<T>, chunk: seq<(int, T)>, batch: nat, dp: nat, rank: nat, c: nat, s: nat)
    requires batch > 0 && rank < dp && s == c * batch && s < |samples|
    requires var length := BatchLength(|samples|, batch, s);
             chunk == RankSlice(Indexed(samples)[s..s + length], ShardSize(length, dp), rank)
    ensures Lists(chunk, samples, Mine(|samples|, batch, dp, rank), s, s + BatchLength(|samples|, batch, s))
  {
    var length := BatchLength(|samples|, batch, s);
    var size := ShardSize(length, dp);
    WindowIsMine(|samples|, batch, dp, rank, c, s, length, rank * size, size);
    WindowLists(samples, chunk, Mine(|samples|, batch, dp, rank), s, length, rank * size, size);
  }

  lemma OneRank<T>(samples: seq<T>, batch: nat)
    requires batch > 0
    ensures IsShard(Indexed(samples), samples, batch, 1, 0)
  {
    forall i | 0 <= i < |samples|
      ensures Owner(|samples|, batch, 1, i) == 0 && (i, samples[i]) in Indexed(samples)
    {
      OwnerIsRank(|samples|, batch, 1, i);
      assert Indexed(samples)[i] == (i, samples[i]);
    }
  }

  /** Of the batch that starts at s, the rank owns the window its chunk is cut from. */
  lemma WindowIsMine(n: nat, batch: nat, dp: nat, rank: nat, c: nat, s: nat, length: nat, lo: nat, size: nat)
    requires batch > 0 && rank < dp && s == c * batch && s < n
    requires length == BatchLength(n, batch, s) && size == ShardSize(length, dp) && lo == rank * size
    ensures forall i :: s <= i < s + length ==> (i in Mine(n, batch, dp, rank) <==> lo <= i - s < lo + size)
  {
    forall i | s <= i < s + length
      ensures Owner(n, batch, dp, i) == rank <==> lo <= i - s < lo + size
    {
      OwnerInBatch(n, batch, dp, c, i - s, rank);
    }
  }

  lemma WindowLists<T>(samples: seq<T>, chunk: seq<(int, T)>, mine: set<int>, s: nat, length: nat, lo: nat, size: nat)
    requires s + length <= |samples|
    requires forall i :: s <= i < s + length ==> (i in mine <==> lo <= i - s < lo + size)
    requires chunk == Slice(Indexed(samples)[s..s + length], lo, if lo + size < length then lo + size else length)
    ensures Lists(chunk, samples, mine, s, s + length)
  {
    forall a | 0 <= a < |chunk|
      ensures chunk[a] == (s + lo + a, samples[s + lo + a]) && s + lo + a in mine
    {
      var current := Indexed(samples)[s..s + length];
      assert chunk[a] == current[lo + a] == Indexed(samples)[s + lo + a];
    }
    forall i | s <= i < s + length && i in mine
      ensures (i, samples[i]) in chunk
    {
      assert chunk[i - s - lo] == (i, samples[i]);
    }
  }

  lemma NextChunk<T>(samples: seq<T>, selected: seq<(int, T)>, chunk: seq<(int, T)>, mine: set<int>, s: nat, e: nat)
    requires s <= e && Lists(selected, samples, mine, 0, s)
    requires Lists(chunk, samples, mine, s, if e < |samples| then e else |samples|)
    ensures Lists(selected + chunk, samples, mine, 0, e)
  {
    forall i | 0 <= i < |samples| && i < e && i in mine
      ensures (i, samples[i]) in selected + chunk
    {
      assert (i, samples[i]) in if i < s then selected else chunk;
    }
  }

  /** Over all ranks every sample is in exactly one shard, and in it once. */
  lemma ShardsCoverOnce<T>(samples: seq<T>, shards: seq<seq<(int, T)>>, batch: nat, i: nat)
    requires batch > 0 && |shards| > 0 && i < |samples|
    requires forall r :: 0 <= r < |shards| ==> IsShard(shards[r], samples, batch, |shards|, r)
    ensures var owner := Owner(|samples|, batch, |shards|, i);
            && owner < |shards|
            && (forall r :: 0 <= r < |shards| ==> ((i, samples[i]) in shards[r] <==> r == owner))
            && (forall r, a, b :: 0 <= r < |shards| && 0 <= a < b < |shards[r]| ==> shards[r][a].0 != shards[r][b].0)
  {
    OwnerIsRank(|samples|, batch, |shards|, i);
  }
}
