/** The replay buffer of asynchronous GRPO (`ReplayBuffer` in nemo_rl/algorithms/async_utils.py).

    The buffer keeps three parallel lists; its abstract value is one sequence of records.  Every method
    is specified on that value, and module BufferHistory runs it as an operation on values.
 */
module ReplayBuffers {
  import opened Wrappers

  datatype Record<+T> = Record(item: T, version: int, target: int)

  /** What `sample` returns or raises. */
  datatype Outcome<+T> =
    | WorkerFailed(message: string)
    | TooOld
    | NotReady
    | NoAverage
    | Batch(items: seq<T>, averageAge: real)

  // ---------------------------------------------------------------- specification

  function MinValid(w: int, maxAge: int): int
  {
    if w - maxAge > 0 then w - maxAge else 0
  }

  ghost predicate HasOld<T>(rs: seq<Record<T>>, lo: int)
  {
    exists i :: 0 <= i < |rs| && rs[i].version < lo
  }

  /** Usable at trainer version w: generated no later than w and meant for w. */
  predicate Matches<T>(r: Record<T>, w: int)
  {
    r.target == w && r.version <= w
  }

  /** The records usable at w, in order. */
  function Matching<T>(rs: seq<Record<T>>, w: int): seq<Record<T>>
  {
    if rs == [] then []
    else (if Matches(rs[0], w) then [rs[0]] else []) + Matching(rs[1..], w)
  }

  /** The buffer after its first n usable records are gone. */
  function Kept<T>(rs: seq<Record<T>>, w: int, n: nat): seq<Record<T>>
  {
    if rs == [] then []
    else if n > 0 && Matches(rs[0], w) then Kept(rs[1..], w, n - 1)
    else [rs[0]] + Kept(rs[1..], w, n)
  }

  function Items<T>(rs: seq<Record<T>>): seq<T>
  {
    seq(|rs|, i requires 0 <= i < |rs| => rs[i].item)
  }

  function VersionSum<T>(rs: seq<Record<T>>): int
  {
    if rs == [] then 0 else rs[0].version + VersionSum(rs[1..])
  }

  ghost function Sampled<T>(rs: seq<Record<T>>, error: Option<string>, n: nat, w: int, maxAge: int): Outcome<T>
  {
    if error.Some? then WorkerFailed(error.value)
    else if HasOld(rs, MinValid(w, maxAge)) then TooOld
    else if rs == [] || (forall i :: 0 <= i < |rs| ==> rs[i].version > w) || |Matching(rs, w)| < n then NotReady
    else if n == 0 then NoAverage
    else var taken := Matching(rs, w)[..n];
         Batch(Items(taken), w as real - (VersionSum(taken) as real / n as real))
  }

  // ---------------------------------------------------------------- removal by index, back to front

  function Pop<T>(s: seq<T>, i: nat): seq<T>
    requires i < |s|
  {
    s[..i] + s[i + 1..]
  }

  ghost predicate Ascending(idx: seq<nat>, lo: nat, hi: nat)
    ensures Ascending(idx, lo, hi) ==> lo + |idx| <= hi || idx == []
  {
    idx == [] || (lo <= idx[0] < hi && Ascending(idx[1..], idx[0] + 1, hi))
  }

  /** Popping the listed indices, last one first. */
  ghost function PopAll<T>(s: seq<T>, idx: seq<nat>): (r: seq<T>)
    requires Ascending(idx, 0, |s|)
    ensures |r| == |s| - |idx|
  {
    if idx == [] then s
    else
      Widen(idx[1..], idx[0] + 1, 0, |s|);
      Pop(PopAll(s, idx[1..]), idx[0])
  }

  lemma Widen(idx: seq<nat>, lo: nat, lower: nat, hi: nat)
    requires lower <= lo && Ascending(idx, lo, hi)
    ensures Ascending(idx, lower, hi)
  {
  }

  ghost function MatchingIndices<T>(rs: seq<Record<T>>, w: int, from: nat): (idx: seq<nat>)
    requires from <= |rs|
    ensures Ascending(idx, from, |rs|)
    ensures forall j :: 0 <= j < |idx| ==> from <= idx[j] < |rs|
    decreases |rs| - from
  {
    if from == |rs| then []
    else
      var rest := MatchingIndices(rs, w, from + 1);
      Widen(rest, from + 1, from, |rs|);
      if Matches(rs[from], w) then [from] + rest else rest
  }

  lemma {:induction false} TakeAscending(idx: seq<nat>, n: nat, lo: nat, hi: nat)
    requires n <= |idx| && Ascending(idx, lo, hi)
    ensures Ascending(idx[..n], lo, hi)
  {
    if n > 0 {
      TakeAscending(idx[1..], n - 1, idx[0] + 1, hi);
      assert idx[..n][1..] == idx[1..][..n - 1];
    }
  }

  /** One more index in front: the record at `from` goes as well. */
  lemma PopTaken<T>(rs: seq<Record<T>>, idx: seq<nat>, from: nat, kept: seq<Record<T>>)
    requires idx != [] && idx[0] == from < |rs| && Ascending(idx, 0, |rs|) && Ascending(idx[1..], 0, |rs|)
    requires PopAll(rs, idx[1..]) == rs[..from + 1] + kept
    ensures PopAll(rs, idx) == rs[..from] + kept
  {
    assert rs[..from + 1] == rs[..from] + [rs[from]];
    PopBoundary(rs[..from], rs[from], kept);
  }

  /** Popping the first n usable indices back to front leaves every other record in order. */
  lemma {:induction false} PopAllKeepsRest<T>(rs: seq<Record<T>>, w: int, n: nat, from: nat)
    requires from <= |rs| && n <= |MatchingIndices(rs, w, from)|
    ensures var idx := MatchingIndices(rs, w, from)[..n];
            Ascending(idx, 0, |rs|) && PopAll(rs, idx) == rs[..from] + Kept(rs[from..], w, n)
    decreases |rs| - from
  {
    var all := MatchingIndices(rs, w, from);
    TakeAscending(all, n, from, |rs|);
    Widen(all[..n], from, 0, |rs|);
    if from < |rs| {
      KeptStep(rs, w, n, from);
      if Matches(rs[from], w) && n > 0 {
        PopAllKeepsRest(rs, w, n - 1, from + 1);
        assert all[..n][1..] == MatchingIndices(rs, w, from + 1)[..n - 1];
        PopTaken(rs, all[..n], from, Kept(rs[from + 1..], w, n - 1));
      } else {
        PopAllKeepsRest(rs, w, n, from + 1);
        assert all[..n] == MatchingIndices(rs, w, from + 1)[..n];
        Reassociate(rs[..from], [rs[from]], Kept(rs[from + 1..], w, n));
      }
    }
  }

  lemma Reassociate<T>(a: seq<T>, b: seq<T>, c: seq<T>)
    ensures a + (b + c) == (a + b) + c
  {
  }

  lemma KeptStep<T>(rs: seq<Record<T>>, w: int, n: nat, from: nat)
    requires from < |rs|
    ensures rs[..from + 1] == rs[..from] + [rs[from]]
    ensures Kept(rs[from..], w, n)
         == if n > 0 && Matches(rs[from], w) then Kept(rs[from + 1..], w, n - 1)
            else [rs[from]] + Kept(rs[from + 1..], w, n)
  {
    assert rs[from..][0] == rs[from] && rs[from..][1..] == rs[from + 1..];
  }

  lemma PopBoundary<T>(left: seq<T>, x: T, right: seq<T>)
    ensures Pop(left + [x] + right, |left|) == left + right
  {
  }

  lemma {:induction false} MatchingAtIndices<T>(rs: seq<Record<T>>, w: int, from: nat)
    requires from <= |rs|
    ensures var idx := MatchingIndices(rs, w, from);
            |Matching(rs[from..], w)| == |idx|
            && forall j :: 0 <= j < |idx| ==> Matching(rs[from..], w)[j] == rs[idx[j]]
    decreases |rs| - from
  {
    if from < |rs| {
      MatchingAtIndices(rs, w, from + 1);
      assert rs[from..][1..] == rs[from + 1..];
    }
  }

  // ---------------------------------------------------------------- what a sample is, by index

  /** A record the trainer may use at version w. */
  ghost predicate Usable<T>(rs: seq<Record<T>>, w: int, i: nat)
  {
    i < |rs| && rs[i].target == w && rs[i].version <= w
  }

  /** The indices of the first |idx| usable records, in order: none is passed over. */
  ghost predicate FirstUsable<T>(rs: seq<Record<T>>, w: int, idx: seq<nat>)
  {
    && (forall j :: 0 <= j < |idx| ==> Usable(rs, w, idx[j]))
    && (forall i, j :: 0 <= i < j < |idx| ==> idx[i] < idx[j])
    && (forall i: nat, j :: 0 <= j < |idx| && i < idx[j] && Usable(rs, w, i) ==> i in idx)
  }

  /** All indices that are not listed, in order. */
  ghost predicate Others(n: nat, idx: seq<nat>, others: seq<nat>)
  {
    && (forall j :: 0 <= j < |others| ==> others[j] < n && others[j] !in idx)
    && (forall i: nat :: i < n && i !in idx ==> i in others)
    && (forall i, j :: 0 <= i < j < |others| ==> others[i] < others[j])
  }

  /** The ages at version w of the listed records, added up. */
  ghost function AgeSum<T>(rs: seq<Record<T>>, w: int, idx: seq<nat>): int
    requires forall j :: 0 <= j < |idx| ==> idx[j] < |rs|
  {
    if idx == [] then 0 else (w - rs[idx[0]].version) + AgeSum(rs, w, idx[1..])
  }

  ghost predicate ItemsAt<T>(rs: seq<Record<T>>, idx: seq<nat>, items: seq<T>)
    requires forall j :: 0 <= j < |idx| ==> idx[j] < |rs|
  {
    |items| == |idx| && forall j :: 0 <= j < |idx| ==> items[j] == rs[idx[j]].item
  }

  ghost predicate RecordsAt<T>(rs: seq<Record<T>>, idx: seq<nat>, some: seq<Record<T>>)
    requires forall j :: 0 <= j < |idx| ==> idx[j] < |rs|
  {
    |some| == |idx| && forall j :: 0 <= j < |idx| ==> some[j] == rs[idx[j]]
  }

  ghost predicate IsAverage(age: real, n: nat, sum: int)
  {
    age * n as real == sum as real
  }

  /** A batch of n: the items of the first n usable records of `before`, in order, with their average age; every
      other record is left, in order. */
  ghost predicate IsBatch<T>(before: seq<Record<T>>, after: seq<Record<T>>, n: nat, w: int, items: seq<T>, age: real)
  {
    exists idx: seq<nat>, others: seq<nat> :: FirstUsable(before, w, idx) && Others(|before|, idx, others) &&
      |idx| == n && ItemsAt(before, idx, items) && RecordsAt(before, others, after) &&
      IsAverage(age, n, AgeSum(before, w, idx))
  }

  /** Some record is older than the window, or older than any version. */
  ghost predicate SomeTooOld<T>(rs: seq<Record<T>>, w: int, maxAge: int)
  {
    exists i :: 0 <= i < |rs| && (rs[i].version < 0 || rs[i].version < w - maxAge)
  }

  /** Some record is not from the future, and n are usable. */
  ghost predicate Enough<T>(rs: seq<Record<T>>, n: nat, w: int)
  {
    (exists i :: 0 <= i < |rs| && rs[i].version <= w) && HasUsable(rs, n, w)
  }

  ghost predicate HasUsable<T>(rs: seq<Record<T>>, n: nat, w: int)
  {
    exists idx: seq<nat> :: |idx| == n && FirstUsable(rs, w, idx)
  }

  lemma {:induction false} IndicesAscend(idx: seq<nat>, lo: nat, hi: nat)
    requires Ascending(idx, lo, hi)
    ensures forall i, j :: 0 <= i < j < |idx| ==> idx[i] < idx[j]
    ensures forall j :: 0 <= j < |idx| ==> lo <= idx[j] < hi
  {
    if idx != [] {
      IndicesAscend(idx[1..], idx[0] + 1, hi);
    }
  }

  /** The matching indices are the usable ones. */
  lemma {:induction false} IndicesAreUsable<T>(rs: seq<Record<T>>, w: int, from: nat)
    requires from <= |rs|
    ensures forall i: nat :: i in MatchingIndices(rs, w, from) <==> from <= i && Usable(rs, w, i)
    decreases |rs| - from
  {
    if from < |rs| {
      IndicesAreUsable(rs, w, from + 1);
      assert Usable(rs, w, from) <==> Matches(rs[from], w);
    }
  }

  lemma PrefixIsFirst<T>(rs: seq<Record<T>>, w: int, n: nat)
    requires n <= |MatchingIndices(rs, w, 0)|
    ensures FirstUsable(rs, w, MatchingIndices(rs, w, 0)[..n])
  {
    var all := MatchingIndices(rs, w, 0);
    IndicesAscend(all, 0, |rs|);
    IndicesAreUsable(rs, w, 0);
    forall i: nat, j | 0 <= j < n && i < all[j] && Usable(rs, w, i)
      ensures i in all[..n]
    {
      var k :| 0 <= k < |all| && all[k] == i;
      assert all[..n][k] == i;
    }
  }

  /** No more usable records than matching indices. */
  lemma {:induction false} NoMoreUsable<T>(rs: seq<Record<T>>, w: int, from: nat, idx: seq<nat>)
    requires from <= |rs| && forall j :: 0 <= j < |idx| ==> idx[j] >= from && Usable(rs, w, idx[j])
    requires forall i, j :: 0 <= i < j < |idx| ==> idx[i] < idx[j]
    ensures |idx| <= |MatchingIndices(rs, w, from)|
    decreases |rs| - from
  {
    if idx != [] {
      NoMoreUsable(rs, w, from + 1, if idx[0] == from then idx[1..] else idx);
    }
  }

  ghost function Unlisted(n: nat, idx: seq<nat>, from: nat): (r: seq<nat>)
    requires from <= n
    ensures forall j :: 0 <= j < |r| ==> from <= r[j] < n && r[j] !in idx
    ensures forall i: nat :: from <= i < n && i !in idx ==> i in r
    ensures forall i, j :: 0 <= i < j < |r| ==> r[i] < r[j]
    decreases n - from
  {
    if from == n then []
    else if from in idx then Unlisted(n, idx, from + 1)
    else [from] + Unlisted(n, idx, from + 1)
  }

  /** The matching indices from `from` on, the first n of them, are what `idx` lists there. */
  ghost predicate ListsFrom<T>(rs: seq<Record<T>>, w: int, n: nat, from: nat, idx: seq<nat>)
    requires from <= |rs| && n <= |MatchingIndices(rs, w, from)|
  {
    forall i: nat :: i >= from ==> (i in idx <==> i in MatchingIndices(rs, w, from)[..n])
  }

  lemma ListsOneLess<T>(rs: seq<Record<T>>, w: int, n: nat, from: nat, idx: seq<nat>)
    requires from < |rs| && n <= |MatchingIndices(rs, w, from)| && ListsFrom(rs, w, n, from, idx)
    ensures from in idx <==> n > 0 && Matches(rs[from], w)
    ensures var m := if n > 0 && Matches(rs[from], w) then n - 1 else n;
            (n == 0 || m <= |MatchingIndices(rs, w, from + 1)|)
             && ListsFrom(rs, w, if n == 0 then 0 else m, from + 1, idx)
  {
    var all, rest := MatchingIndices(rs, w, from), MatchingIndices(rs, w, from + 1);
    if n > 0 && Matches(rs[from], w) {
      assert all[..n] == [from] + rest[..n - 1];
    } else if n > 0 {
      assert all == rest;
    }
  }

  /** What is kept is what is not listed. */
  lemma {:induction false} KeptIsUnlisted<T>(rs: seq<Record<T>>, w: int, n: nat, from: nat, idx: seq<nat>)
    requires from <= |rs| && n <= |MatchingIndices(rs, w, from)| && ListsFrom(rs, w, n, from, idx)
    ensures RecordsAt(rs, Unlisted(|rs|, idx, from), Kept(rs[from..], w, n))
    decreases |rs| - from
  {
    if from < |rs| {
      KeptStep(rs, w, n, from);
      ListsOneLess(rs, w, n, from, idx);
      KeptIsUnlisted(rs, w, if n > 0 && Matches(rs[from], w) then n - 1 else n, from + 1, idx);
    }
  }

  lemma {:induction false} AgesAddUp<T>(rs: seq<Record<T>>, w: int, idx: seq<nat>)
    requires forall j :: 0 <= j < |idx| ==> idx[j] < |rs|
    ensures AgeSum(rs, w, idx) == |idx| * w - VersionSum(At(rs, idx))
  {
    if idx != [] {
      AgesAddUp(rs, w, idx[1..]);
      assert At(rs, idx)[1..] == At(rs, idx[1..]);
      assert |idx| * w == (|idx| - 1) * w + w;
    }
  }

  lemma AverageTimes(sum: int, w: int, n: nat)
    requires n > 0
    ensures (w as real - (sum as real / n as real)) * n as real == (n * w - sum) as real
  {
    var q := sum as real / n as real;
    assert q * n as real == sum as real;
    assert w as real * n as real == (n * w) as real;
  }

  lemma UnlistedAreOthers(n: nat, idx: seq<nat>)
    ensures Others(n, idx, Unlisted(n, idx, 0))
  {
  }

  lemma BatchOf<T>(before: seq<Record<T>>, after: seq<Record<T>>, n: nat, w: int, items: seq<T>, age: real,
      idx: seq<nat>, others: seq<nat>)
    requires FirstUsable(before, w, idx) && Others(|before|, idx, others) && |idx| == n
    requires ItemsAt(before, idx, items) && RecordsAt(before, others, after)
    requires IsAverage(age, n, AgeSum(before, w, idx))
    ensures IsBatch(before, after, n, w, items, age)
  {
  }

  /** The specification's batch, index by index. */
  lemma SampledIsBatch<T>(rs: seq<Record<T>>, n: nat, w: int, items: seq<T>, age: real)
    requires 0 < n <= |MatchingIndices(rs, w, 0)| && n <= |Matching(rs, w)|
    requires items == Items(Matching(rs, w)[..n])
    requires age == w as real - (VersionSum(Matching(rs, w)[..n]) as real / n as real)
    ensures IsBatch(rs, Kept(rs, w, n), n, w, items, age)
  {
    assert rs[0..] == rs;
    var idx := MatchingIndices(rs, w, 0)[..n];
    PrefixIsFirst(rs, w, n);
    KeptIsUnlisted(rs, w, n, 0, idx);
    TakenItems(rs, w, n);
    UnlistedAreOthers(|rs|, idx);
    BatchOf(rs, Kept(rs, w, n), n, w, items, age, idx, Unlisted(|rs|, idx, 0));
  }

  lemma TakenItems<T>(rs: seq<Record<T>>, w: int, n: nat)
    requires 0 < n <= |MatchingIndices(rs, w, 0)|
    ensures |Matching(rs, w)| >= n
    ensures var idx, taken := MatchingIndices(rs, w, 0)[..n], Matching(rs, w)[..n];
            && ItemsAt(rs, idx, Items(taken))
            && IsAverage(w as real - (VersionSum(taken) as real / n as real), n, AgeSum(rs, w, idx))
  {
    MatchingAtIndices(rs, w, 0);
    assert rs[0..] == rs;
    var idx := MatchingIndices(rs, w, 0)[..n];
    assert At(rs, idx) == Matching(rs, w)[..n];
    AgesAddUp(rs, w, idx);
    AverageTimes(VersionSum(At(rs, idx)), w, n);
  }

  lemma EnoughExactly<T>(rs: seq<Record<T>>, n: nat, w: int)
    ensures HasUsable(rs, n, w) <==> |Matching(rs, w)| >= n
  {
    MatchingAtIndices(rs, w, 0);
    assert rs[0..] == rs;
    if |Matching(rs, w)| >= n {
      PrefixIsFirst(rs, w, n);
      assert |MatchingIndices(rs, w, 0)[..n]| == n;
    }
    if HasUsable(rs, n, w) {
      var idx: seq<nat> :| |idx| == n && FirstUsable(rs, w, idx);
      NoMoreUsable(rs, w, 0, idx);
    }
  }

  /** Which answer a sample gives: a reported error first, then a record that is too old, then too few records to
      fill a batch; a batch of none has no average. */
  ghost predicate Explains<T>(rs: seq<Record<T>>, error: Option<string>, n: nat, w: int, maxAge: int, r: Outcome<T>)
  {
    && (r.WorkerFailed? <==> error.Some?) && (r.WorkerFailed? ==> error == Some(r.message))
    && (r.TooOld? <==> error.None? && SomeTooOld(rs, w, maxAge))
    && (r.NotReady? <==> error.None? && !SomeTooOld(rs, w, maxAge) && !Enough(rs, n, w))
    && (r.NoAverage? <==> error.None? && !SomeTooOld(rs, w, maxAge) && Enough(rs, n, w) && n == 0)
  }

  lemma AnswerExactly<T>(rs: seq<Record<T>>, error: Option<string>, n: nat, w: int, maxAge: int)
    ensures Explains(rs, error, n, w, maxAge, Sampled(rs, error, n, w, maxAge))
  {
    EnoughExactly(rs, n, w);
    assert HasOld(rs, MinValid(w, maxAge)) <==> SomeTooOld(rs, w, maxAge);
  }

  // ---------------------------------------------------------------- the class

  class ReplayBuffer<T> {
    const maxSize: nat
    var trajectories: seq<T>
    var versions: seq<int>
    var targets: seq<int>
    var lastTarget: int
    var workerError: Option<string>

    ghost predicate Valid()
      reads this
    {
      |trajectories| == |versions| == |targets| <= maxSize
    }

    /** The buffer as one sequence of records. */
    ghost function Contents(): (rs: seq<Record<T>>)
      requires Valid()
      reads this
    {
      seq(|trajectories|, i requires 0 <= i < |trajectories| reads this requires Valid() =>
        Record(trajectories[i], versions[i], targets[i]))
    }

    constructor (maxSize: nat)
      requires maxSize > 0
      ensures Valid() && Contents() == [] && this.maxSize == maxSize
      ensures lastTarget == -1 && workerError == None
    {
      this.maxSize := maxSize;
      trajectories, versions, targets := [], [], [];
      lastTarget, workerError := -1, None;
    }

    method ReportWorkerError(message: string)
      requires Valid()
      modifies this`workerError
      ensures Valid() && workerError == Some(message)
    {
      workerError := Some(message);
    }

    /** A size that is not positive is refused. */
    static method Create(maxSize: int) returns (b: Option<ReplayBuffer<T>>)
      ensures b.None? <==> maxSize <= 0
      ensures b.Some? ==> fresh(b.value) && b.value.Valid() && b.value.Contents() == [] && b.value.maxSize == maxSize
      ensures b.Some? ==> b.value.lastTarget == -1 && b.value.workerError == None
    {
      if maxSize <= 0 {
        return None;
      }
      var buffer := new ReplayBuffer<T>(maxSize);
      b := Some(buffer);
    }

    /** `push_with_wait_signal`: false is the "full" answer. */
    method Push(item: T, version: int, target: int) returns (success: bool)
      requires Valid()
      modifies this`trajectories, this`versions, this`targets, this`lastTarget
      ensures Valid()
      ensures success <==> |old(Contents())| < maxSize
      ensures success ==> Contents() == old(Contents()) + [Record(item, version, target)]
      ensures success ==> lastTarget == if target > old(lastTarget) then target else old(lastTarget)
      ensures !success ==> Contents() == old(Contents()) && lastTarget == old(lastTarget)
    {
      if |trajectories| >= maxSize {
        return false;
      }
      trajectories, versions, targets := trajectories + [item], versions + [version], targets + [target];
      lastTarget := if target > lastTarget then target else lastTarget;
      return true;
    }

    method Clear()
      requires Valid()
      modifies this`trajectories, this`versions, this`targets
      ensures Valid() && Contents() == []
    {
      trajectories, versions, targets := [], [], [];
    }

    /** Indices whose version lies in the window. */
    method ValidIndices(lo: int, w: int) returns (idx: seq<nat>)
      requires Valid()
      ensures idx == InWindow(Contents(), lo, w, |Contents()|)
    {
      idx := [];
      for i := 0 to |versions|
        invariant idx == InWindow(Contents(), lo, w, i)
      {
        if lo <= versions[i] <= w {
          idx := idx + [i];
        }
      }
    }

    /** Among those, the indices meant for version w. */
    method IntendedIndices(valid: seq<nat>, w: int) returns (idx: seq<nat>)
      requires Valid() && forall j :: 0 <= j < |valid| ==> valid[j] < |targets|
      ensures idx == ForTarget(Contents(), valid, w, |valid|)
    {
      idx := [];
      for j := 0 to |valid|
        invariant idx == ForTarget(Contents(), valid, w, j)
      {
        if targets[valid[j]] == w {
          idx := idx + [valid[j]];
        }
      }
    }

    /** Pop the selected indices from the three lists, largest index first. */
    method Remove(selected: seq<nat>)
      requires Valid() && Ascending(selected, 0, |Contents()|)
      modifies this`trajectories, this`versions, this`targets
      ensures Valid() && Contents() == PopAll(old(Contents()), selected)
    {
      var j := |selected|;
      ghost var before := Contents();
      SuffixAscending(selected, j, |before|);
      while j > 0
        invariant 0 <= j <= |selected| && Valid()
        invariant Ascending(selected[j..], 0, |before|) && Contents() == PopAll(before, selected[j..])
      {
        j := j - 1;
        SuffixAscending(selected, j, |before|);
        assert selected[j..][1..] == selected[j + 1..];
        var i := selected[j];
        trajectories, versions, targets := Pop(trajectories, i), Pop(versions, i), Pop(targets, i);
      }
      assert selected[0..] == selected;
    }

    /** Average age of the selected records. */
    method AverageAge(selected: seq<nat>, w: int) returns (age: real)
      requires Valid() && selected != [] && forall j :: 0 <= j < |selected| ==> selected[j] < |versions|
      ensures age == w as real - (VersionSum(At(Contents(), selected)) as real / |selected| as real)
    {
      var sum := 0;
      ghost var taken := At(Contents(), selected);
      for j := 0 to |selected|
        invariant sum == VersionSum(taken[..j])
      {
        SumLast(taken, j);
        sum := sum + versions[selected[j]];
      }
      assert taken[..|taken|] == taken;
      age := w as real - (sum as real / |selected| as real);
    }

    /** The selected trajectories, in order. */
    method Selected(selected: seq<nat>) returns (items: seq<T>)
      requires Valid() && forall j :: 0 <= j < |selected| ==> selected[j] < |trajectories|
      ensures items == Items(At(Contents(), selected))
    {
      items := seq(|selected|, j requires 0 <= j < |selected| reads this
                     requires forall k :: 0 <= k < |selected| ==> selected[k] < |trajectories| =>
                       trajectories[selected[j]]);
    }

    /** The checks of `sample`: a reason to wait or stop, or the indices to consume. */
    method Choose(n: nat, w: int, maxAge: int) returns (stop: Option<Outcome<T>>, selected: seq<nat>)
      requires Valid()
      ensures stop.Some? ==> stop.value == Sampled(Contents(), workerError, n, w, maxAge) && !stop.value.Batch?
      ensures stop.None? ==> Sampled(Contents(), workerError, n, w, maxAge).Batch?
      ensures stop.None? ==> 0 < n <= |MatchingIndices(Contents(), w, 0)|
      ensures stop.None? ==> selected == MatchingIndices(Contents(), w, 0)[..n]
    {
      ghost var rs := Contents();
      if workerError.Some? {
        return Some(WorkerFailed(workerError.value)), [];
      }
      var lo := MinValid(w, maxAge);
      assert forall i :: 0 <= i < |rs| ==> rs[i].version == versions[i];
      if trajectories == [] {
        return Some(NotReady), [];
      }
      if exists i :: 0 <= i < |versions| && versions[i] < lo {
        return Some(TooOld), [];
      }
      var valid := ValidIndices(lo, w);
      EnoughMeansBatch(rs, n, w, maxAge);
      if valid == [] || |valid| < n {
        return Some(NotReady), [];
      }
      var intended := IntendedIndices(valid, w);
      if |intended| < n {
        return Some(NotReady), [];
      }
      if n == 0 {
        return Some(NoAverage), [];
      }
      return None, intended[..n];
    }

    /** `sample`: the next n records meant for version w, or a reason to wait or stop. */
    method Sample(n: nat, w: int, maxAge: int) returns (r: Outcome<T>)
      requires Valid()
      modifies this`trajectories, this`versions, this`targets
      ensures Valid() && r == Sampled(old(Contents()), workerError, n, w, maxAge)
      ensures Contents() == if r.Batch? then Kept(old(Contents()), w, n) else old(Contents())
      ensures r.Batch? ==> IsBatch(old(Contents()), Contents(), n, w, r.items, r.averageAge)
      ensures Explains(old(Contents()), workerError, n, w, maxAge, r)
    {
      AnswerExactly(Contents(), workerError, n, w, maxAge);
      var stop, selected := Choose(n, w, maxAge);
      if stop.Some? {
        return stop.value;
      }
      ghost var rs := Contents();
      MatchingAtIndices(rs, w, 0);
      PopAllKeepsRest(rs, w, n, 0);
      assert rs[0..] == rs;
      assert At(rs, selected) == Matching(rs, w)[..n];
      var age := AverageAge(selected, w);
      var items := Selected(selected);
      Remove(selected);
      r := Batch(items, age);
      SampledIsBatch(rs, n, w, items, age);
    }
  }

  /** The records at the given indices. */
  ghost function At<T>(rs: seq<Record<T>>, idx: seq<nat>): seq<Record<T>>
    requires forall j :: 0 <= j < |idx| ==> idx[j] < |rs|
  {
    seq(|idx|, j requires 0 <= j < |idx| => rs[idx[j]])
  }

  lemma SelectionFacts<T>(rs: seq<Record<T>>, lo: int, w: int)
    requires !HasOld(rs, lo)
    ensures var valid := InWindow(rs, lo, w, |rs|);
            ForTarget(rs, valid, w, |valid|) == MatchingIndices(rs, w, 0)
    ensures At(rs, MatchingIndices(rs, w, 0)) == Matching(rs, w)
  {
    IntendedAreMatching(rs, lo, w, |rs|);
    MatchingAtIndices(rs, w, 0);
    assert rs[0..] == rs;
  }

  /** What the two filtered index lists say about the answer, when no worker failed and nothing is old. */
  lemma EnoughMeansBatch<T>(rs: seq<Record<T>>, n: nat, w: int, maxAge: int)
    requires rs != [] && !HasOld(rs, MinValid(w, maxAge))
    ensures var valid := InWindow(rs, MinValid(w, maxAge), w, |rs|);
            var intended := ForTarget(rs, valid, w, |valid|);
            && intended == MatchingIndices(rs, w, 0) && |intended| <= |valid|
            && (valid == [] || |intended| < n ==> Sampled(rs, None, n, w, maxAge) == NotReady)
            && (valid != [] && |intended| >= n > 0 ==> Sampled(rs, None, n, w, maxAge).Batch?)
            && (valid != [] && n == 0 ==> Sampled(rs, None, n, w, maxAge) == NoAverage)
  {
    SelectionFacts(rs, MinValid(w, maxAge), w);
    assert |Matching(rs, w)| == |MatchingIndices(rs, w, 0)|;
  }

  // ---------------------------------------------------------------- index lists of the code

  ghost function InWindow<T>(rs: seq<Record<T>>, lo: int, w: int, k: nat): (idx: seq<nat>)
    requires k <= |rs|
    ensures forall j :: 0 <= j < |idx| ==> idx[j] < k
    ensures idx == [] <==> forall i :: 0 <= i < k ==> !(lo <= rs[i].version <= w)
  {
    if k == 0 then [] else InWindow(rs, lo, w, k - 1) + (if lo <= rs[k - 1].version <= w then [k - 1] else [])
  }

  ghost function ForTarget<T>(rs: seq<Record<T>>, idx: seq<nat>, w: int, k: nat): (r: seq<nat>)
    requires k <= |idx| && forall j :: 0 <= j < |idx| ==> idx[j] < |rs|
    ensures |r| <= k
  {
    if k == 0 then [] else ForTarget(rs, idx, w, k - 1) + (if rs[idx[k - 1]].target == w then [idx[k - 1]] else [])
  }

  lemma {:induction false} ForTargetPrefix<T>(rs: seq<Record<T>>, idx: seq<nat>, longer: seq<nat>, w: int, k: nat)
    requires k <= |idx| && idx <= longer && forall j :: 0 <= j < |longer| ==> longer[j] < |rs|
    ensures ForTarget(rs, longer, w, k) == ForTarget(rs, idx, w, k)
  {
    if k > 0 {
      ForTargetPrefix(rs, idx, longer, w, k - 1);
    }
  }

  lemma FilterOneMore<T>(rs: seq<Record<T>>, idx: seq<nat>, x: nat, w: int)
    requires x < |rs| && forall j :: 0 <= j < |idx| ==> idx[j] < |rs|
    ensures forall j :: 0 <= j < |idx + [x]| ==> (idx + [x])[j] < |rs|
    ensures ForTarget(rs, idx + [x], w, |idx + [x]|)
         == ForTarget(rs, idx, w, |idx|) + (if rs[x].target == w then [x] else [])
  {
    ForTargetPrefix(rs, idx, idx + [x], w, |idx|);
  }

  /** With nothing too old, the code's two filters leave exactly the usable records. */
  lemma {:induction false} IntendedAreMatching<T>(rs: seq<Record<T>>, lo: int, w: int, k: nat)
    requires !HasOld(rs, lo) && k <= |rs|
    ensures var valid := InWindow(rs, lo, w, k);
            ForTarget(rs, valid, w, |valid|) + MatchingIndices(rs, w, k) == MatchingIndices(rs, w, 0)
  {
    if k > 0 {
      IntendedAreMatching(rs, lo, w, k - 1);
      var before, m := InWindow(rs, lo, w, k - 1), MatchingIndices(rs, w, k);
      var f := ForTarget(rs, before, w, |before|);
      assert rs[k - 1].version >= lo;
      if rs[k - 1].version <= w {
        assert InWindow(rs, lo, w, k) == before + [k - 1];
        FilterOneMore(rs, before, k - 1, w);
        if Matches(rs[k - 1], w) {
          Reassociate(f, [k - 1], m);
        } else {
          assert f + [] == f;
        }
      } else {
        assert before + [] == before;
      }
    }
  }

  lemma {:induction false} SuffixAscending(idx: seq<nat>, j: nat, hi: nat)
    requires j <= |idx| && Ascending(idx, 0, hi)
    ensures Ascending(idx[j..], 0, hi)
    decreases j
  {
    if j > 0 {
      SuffixAscending(idx, j - 1, hi);
      var rest := idx[j - 1..];
      assert rest[1..] == idx[j..];
      Widen(idx[j..], rest[0] + 1, 0, hi);
    }
  }

  lemma {:induction false} SumLast<T>(rs: seq<Record<T>>, j: nat)
    requires j < |rs|
    ensures VersionSum(rs[..j + 1]) == VersionSum(rs[..j]) + rs[j].version
  {
    if j > 0 {
      SumLast(rs[1..], j - 1);
      assert rs[..j + 1][1..] == rs[1..][..j] && rs[..j][1..] == rs[1..][..j - 1];
    }
  }
}
