/** Step counting of `grpo_train` against the scheduler length that `setup` computes
    (nemo_rl/algorithms/grpo.py, lines 877-889, 2000-2009, 2247-2249, 2533-2594 and 2982-2998), for one
    dataloader and a fresh state. */
module StepAccounting {
  import opened Arithmetic

  datatype Settings = Settings(maxSteps: nat, maxEpochs: nat, batches: nat, lambda: nat)

  /** What happens to a batch: not enough usable groups yet, trained, or trained and out of time. */
  datatype Fate = Incomplete | Trained | TimedOut

  /** Epoch and index in the dataloader to what happens there. */
  type Course = (nat, nat) -> Fate

  function Smaller(a: nat, b: nat): nat
  {
    if a < b then a else b
  }

  function EpochBound(s: Settings): nat
  {
    s.maxEpochs * s.batches * s.lambda
  }

  /** `train_iters` */
  function TrainIters(s: Settings): nat
    requires s.lambda > 0
  {
    Smaller(RoundUp(s.maxSteps, s.lambda), EpochBound(s))
  }

  ghost predicate Uninterrupted(course: Course)
  {
    forall e, i :: course(e, i) == Trained
  }

  /** The passes over one rollout; `total` counts all but the last, which the caller adds. */
  method TrainOnRollout(lambda: nat, total: nat) returns (updates: nat, steps: nat)
    requires lambda > 0
    ensures updates == lambda && steps == total + lambda - 1
  {
    updates, steps := 0, total;
    for pass := 0 to lambda
      invariant updates == pass && steps == total + if pass < lambda then pass else lambda - 1
    {
      updates := updates + 1;
      if pass < lambda - 1 {
        steps := steps + 1;
      }
    }
  }

  /** After r rollouts, none of which had reached the limit before, the steps stay within the bound. */
  lemma WithinSteps(r: nat, lambda: nat, maxSteps: nat)
    requires lambda > 0 && (r > 0 ==> (r - 1) * lambda < maxSteps)
    ensures r * lambda <= RoundUp(maxSteps, lambda)
    ensures r * lambda >= maxSteps ==> r * lambda == RoundUp(maxSteps, lambda)
  {
    RoundUpLeast(maxSteps, lambda);
    var q := (maxSteps + lambda - 1) / lambda;
    if r > 0 {
      MulLess(r - 1, q, lambda);
      MulMono(r, q, lambda);
    }
  }

  lemma WithinEpochs(r: nat, epochs: nat, batches: nat, lambda: nat)
    requires r <= epochs * batches
    ensures r * lambda <= epochs * batches * lambda
  {
    MulMono(r, epochs * batches, lambda);
  }

  // ---------------------------------------------------------------- what a course amounts to

  /** What happens to the k-th batch of the run, counted through all epochs. */
  function FateAt(s: Settings, course: Course, k: nat): Fate
    requires s.batches > 0
  {
    course(k / s.batches, k % s.batches)
  }

  /** Rollouts among the first k batches. */
  function Rollouts(s: Settings, course: Course, k: nat): nat
    requires k > 0 ==> s.batches > 0
  {
    if k == 0 then 0 else Rollouts(s, course, k - 1) + (if FateAt(s, course, k - 1) == Incomplete then 0 else 1)
  }

  function Updates(s: Settings, course: Course, k: nat): nat
    requires k > 0 ==> s.batches > 0
  {
    Rollouts(s, course, k) * s.lambda
  }

  /** Batches of all epochs. */
  function Total(s: Settings): nat
  {
    s.maxEpochs * s.batches
  }

  /** The limit is reached, or the last one of the first k batches ran out of time. */
  ghost predicate Stops(s: Settings, course: Course, k: nat)
    requires k > 0 ==> s.batches > 0
  {
    Updates(s, course, k) >= s.maxSteps || (k > 0 && FateAt(s, course, k - 1) == TimedOut)
  }

  /** The run is over after k batches: none is left, or it stops there. */
  ghost predicate Over(s: Settings, course: Course, k: nat)
    requires k > 0 ==> s.batches > 0
  {
    k == Total(s) || Stops(s, course, k)
  }

  /** The run is over after k batches and not before. */
  ghost predicate EndsAfter(s: Settings, course: Course, k: nat)
  {
    && k <= Total(s) && (k > 0 ==> s.batches > 0)
    && Over(s, course, k) && forall j: nat :: j < k ==> !Over(s, course, j)
  }

  predicate Complete(course: Course, epoch: nat, i: nat)
  {
    course(epoch, i) != Incomplete
  }

  ghost predicate EpochComplete(s: Settings, course: Course, epoch: nat)
  {
    forall i: nat :: i < s.batches ==> Complete(course, epoch, i)
  }

  /** Every batch of the last epoch was visited and complete. */
  ghost predicate LastEpochFull(s: Settings, course: Course, k: nat)
  {
    s.maxEpochs > 0 && s.batches > 0 && k == Total(s) && EpochComplete(s, course, s.maxEpochs - 1)
  }

  /** A run's outcome: whole rollouts for exactly the complete batches before its end, and the end-of-run flag
      raised once, at the rollout that reached the limit or closed a full last epoch. */
  ghost predicate Outcome(s: Settings, course: Course, updates: nat, flagged: nat)
  {
    exists k: nat :: EndsAfter(s, course, k) && updates == Updates(s, course, k) &&
      flagged == if updates > 0 && (updates >= s.maxSteps || LastEpochFull(s, course, k)) then 1 else 0
  }

  lemma FateIs(s: Settings, course: Course, epoch: nat, i: nat)
    requires i < s.batches
    ensures FateAt(s, course, epoch * s.batches + i) == course(epoch, i)
  {
    Quotient(epoch * s.batches + i, s.batches, epoch);
  }

  lemma {:induction false} AllRollouts(s: Settings, course: Course, k: nat)
    requires Uninterrupted(course) && (k > 0 ==> s.batches > 0)
    ensures Rollouts(s, course, k) == k
  {
    if k > 0 {
      AllRollouts(s, course, k - 1);
    }
  }

  /** The loop goes on after k batches: none of the first k ended the run. */
  ghost predicate GoesOn(s: Settings, course: Course, k: nat)
  {
    (k > 0 ==> s.batches > 0) && forall j: nat :: j < k ==> !Over(s, course, j)
  }

  lemma Ended(s: Settings, course: Course, k: nat, updates: nat, flagged: nat)
    requires k <= Total(s) && GoesOn(s, course, k) && Over(s, course, k)
    requires updates == Updates(s, course, k)
    requires flagged == if updates > 0 && (updates >= s.maxSteps || LastEpochFull(s, course, k)) then 1 else 0
    ensures Outcome(s, course, updates, flagged)
  {
    assert EndsAfter(s, course, k);
  }

  /** Without a timeout and without incomplete batches the outcome is `train_iters`. */
  lemma UninterruptedReaches(s: Settings, course: Course, updates: nat, flagged: nat)
    requires s.lambda > 0 && Uninterrupted(course) && Outcome(s, course, updates, flagged)
    ensures updates == TrainIters(s)
    ensures flagged == if updates > 0 then 1 else 0
  {
    var k: nat :| EndsAfter(s, course, k) && updates == Updates(s, course, k) &&
      flagged == if updates > 0 && (updates >= s.maxSteps || LastEpochFull(s, course, k)) then 1 else 0;
    AllRollouts(s, course, k);
    WithinEpochs(k, s.maxEpochs, s.batches, s.lambda);
    if k > 0 {
      AllRollouts(s, course, k - 1);
      assert !Over(s, course, k - 1);
    }
    WithinSteps(k, s.lambda, s.maxSteps);
  }

  /** Never more than `train_iters`, whatever the course. */
  lemma NeverMore(s: Settings, course: Course, k: nat)
    requires s.lambda > 0 && k <= Total(s) && GoesOn(s, course, k)
    ensures Updates(s, course, k) <= TrainIters(s)
  {
    RolloutsBounded(s, course, k);
    WithinEpochs(Rollouts(s, course, k), s.maxEpochs, s.batches, s.lambda);
    var r := Rollouts(s, course, k);
    if r > 0 {
      BeforeLast(s, course, k);
    }
    WithinSteps(r, s.lambda, s.maxSteps);
  }

  lemma {:induction false} RolloutsBounded(s: Settings, course: Course, k: nat)
    requires k > 0 ==> s.batches > 0
    ensures Rollouts(s, course, k) <= k
  {
    if k > 0 {
      RolloutsBounded(s, course, k - 1);
    }
  }

  /** Before its last rollout the run had not reached the limit. */
  lemma {:induction false} BeforeLast(s: Settings, course: Course, k: nat)
    requires (k > 0 ==> s.batches > 0) && Rollouts(s, course, k) > 0 && GoesOn(s, course, k)
    ensures (Rollouts(s, course, k) - 1) * s.lambda < s.maxSteps
  {
    assert !Over(s, course, k - 1);
    if FateAt(s, course, k - 1) == Incomplete {
      BeforeLast(s, course, k - 1);
    }
  }

  /** The training loops.  Updates and steps agree and are exactly what the course amounts to: whole rollouts for
      the complete batches before the run ends, never more than `train_iters`, and exactly that without a timeout
      and without incomplete batches. */
  method Train(s: Settings, course: Course) returns (updates: nat, totalSteps: nat, flagged: nat)
    requires s.lambda > 0
    ensures Outcome(s, course, updates, flagged)
    ensures updates == totalSteps <= TrainIters(s)
    ensures Uninterrupted(course) ==> updates == TrainIters(s)
    ensures Uninterrupted(course) ==> flagged == if updates > 0 then 1 else 0
  {
    ghost var k: nat;
    updates, totalSteps, flagged, k := RunEpochs(s, course);
    Ended(s, course, k, updates, flagged);
    NeverMore(s, course, k);
    if Uninterrupted(course) {
      UninterruptedReaches(s, course, updates, flagged);
    }
  }

  /** Batches before an epoch. */
  function Before(s: Settings, epoch: nat): nat
  {
    epoch * s.batches
  }

  /** Batch i of an epoch, counted through: inside the run, and its last one exactly if it ends the last epoch. */
  lemma Inside(s: Settings, epoch: nat, i: nat)
    requires epoch < s.maxEpochs && i < s.batches
    ensures Before(s, epoch) + i < Total(s)
    ensures Before(s, epoch) + i + 1 == Total(s) <==> epoch + 1 == s.maxEpochs && i + 1 == s.batches
  {
    NextEpoch(epoch, s.maxEpochs, s.batches);
    if epoch + 1 < s.maxEpochs {
      NextEpoch(epoch + 1, s.maxEpochs, s.batches);
    }
  }

  /** After a whole epoch. */
  lemma WholeEpoch(s: Settings, epoch: nat)
    requires epoch < s.maxEpochs
    ensures Before(s, epoch) + s.batches == Before(s, epoch + 1) <= Total(s)
    ensures s.batches > 0 ==> (Before(s, epoch + 1) == Total(s) <==> epoch + 1 == s.maxEpochs)
    ensures epoch + 1 == s.maxEpochs ==> Before(s, epoch + 1) == Total(s)
  {
    NextEpoch(epoch, s.maxEpochs, s.batches);
    if epoch + 1 < s.maxEpochs {
      NextEpoch(epoch + 1, s.maxEpochs, s.batches);
    }
  }

  /** The flag after k batches. */
  ghost function Flag(s: Settings, course: Course, updates: nat, k: nat): nat
  {
    if updates > 0 && (updates >= s.maxSteps || LastEpochFull(s, course, k)) then 1 else 0
  }

  /** The outer loop; `k` is the number of batches it got through. */
  method RunEpochs(s: Settings, course: Course) returns (updates: nat, totalSteps: nat, flagged: nat, ghost k: nat)
    requires s.lambda > 0
    ensures k <= Total(s) && GoesOn(s, course, k) && Over(s, course, k)
    ensures updates == totalSteps == Updates(s, course, k) && flagged == Flag(s, course, updates, k)
  {
    var epoch := 0;
    updates, totalSteps, flagged, k := 0, 0, 0, 0;
    while epoch < s.maxEpochs && totalSteps < s.maxSteps
      invariant epoch <= s.maxEpochs && k == Before(s, epoch) <= Total(s) && GoesOn(s, course, k)
      invariant totalSteps < s.maxSteps ==> !Stops(s, course, k)
      invariant updates == totalSteps == Updates(s, course, k) && (totalSteps < s.maxSteps || k == 0)
      invariant flagged == Flag(s, course, updates, k) && (epoch < s.maxEpochs ==> flagged == 0)
    {
      WholeEpoch(s, epoch);
      var over: bool;
      updates, totalSteps, flagged, over, k := RunEpoch(s, course, epoch, totalSteps);
      if over {
        return;
      }
      epoch := epoch + 1;
    }
  }

  /** One epoch: `over` is the early return. */
  method RunEpoch(s: Settings, course: Course, epoch: nat, before: nat)
    returns (updates: nat, totalSteps: nat, flagged: nat, over: bool, ghost k: nat)
    requires s.lambda > 0 && epoch < s.maxEpochs && GoesOn(s, course, Before(s, epoch))
    requires before == Updates(s, course, Before(s, epoch)) && !Stops(s, course, Before(s, epoch))
    ensures k <= Total(s) && GoesOn(s, course, k) && updates == totalSteps == Updates(s, course, k)
    ensures flagged == Flag(s, course, updates, k) && (!over && epoch + 1 < s.maxEpochs ==> flagged == 0)
    ensures if over then Stops(s, course, k) else k == Before(s, epoch + 1) && !Stops(s, course, k)
  {
    k, updates, totalSteps, flagged, over := Before(s, epoch), before, before, 0, false;
    var step := 0;
    for i := 0 to s.batches
      invariant k == Before(s, epoch) + i && GoesOn(s, course, k) && !Stops(s, course, k) && !over
      invariant updates == totalSteps == Updates(s, course, k)
      invariant step <= i && (step == i <==> forall j: nat :: j < i ==> Complete(course, epoch, j))
      invariant step > 0 ==> updates > 0
      invariant flagged == if epoch + 1 == s.maxEpochs && i == s.batches && step == i && i > 0 then 1 else 0
    {
      Inside(s, epoch, i);
      FateIs(s, course, epoch, i);
      var fate := course(epoch, i);
      assert Complete(course, epoch, i) <==> fate != Incomplete;
      k := k + 1;
      if fate == Incomplete {
        continue;
      }
      OneMoreRollout(s, course, k);
      var done, steps := TrainOnRollout(s.lambda, totalSteps);
      var isLast := steps + 1 >= s.maxSteps || (epoch + 1 == s.maxEpochs && step + 1 == s.batches);
      if isLast {
        flagged := flagged + 1;
      }
      step := step + 1;
      updates, totalSteps := updates + done, steps + 1;
      if fate == TimedOut {
        over := true;
        LastFlag(s, course, epoch, i, k, step, updates);
        return;
      }
      if totalSteps >= s.maxSteps {
        over := true;
        return;
      }
    }
    WholeEpoch(s, epoch);
    LastFlagAfter(s, course, epoch, k, step, updates);
  }

  lemma OneMoreRollout(s: Settings, course: Course, k: nat)
    requires k > 0 && s.batches > 0 && FateAt(s, course, k - 1) != Incomplete
    ensures Updates(s, course, k) == Updates(s, course, k - 1) + s.lambda
  {
    MulStep(Rollouts(s, course, k), s.lambda);
  }

  /** Right after batch i the last epoch is full exactly if that batch was its last and all were complete. */
  lemma LastFlag(s: Settings, course: Course, epoch: nat, i: nat, k: nat, step: nat, updates: nat)
    requires epoch < s.maxEpochs && i < s.batches && k == Before(s, epoch) + i + 1 && updates > 0
    requires step <= i + 1 && (step == i + 1 <==> forall j: nat :: j < i + 1 ==> Complete(course, epoch, j))
    ensures LastEpochFull(s, course, k) <==> epoch + 1 == s.maxEpochs && step == s.batches
  {
    Inside(s, epoch, i);
  }

  lemma LastFlagAfter(s: Settings, course: Course, epoch: nat, k: nat, step: nat, updates: nat)
    requires epoch < s.maxEpochs && k == Before(s, epoch + 1) && step <= s.batches
    requires step == s.batches <==> forall j: nat :: j < s.batches ==> Complete(course, epoch, j)
    ensures LastEpochFull(s, course, k) <==> epoch + 1 == s.maxEpochs && step == s.batches && s.batches > 0
  {
    WholeEpoch(s, epoch);
  }

  lemma NextEpoch(epoch: nat, maxEpochs: nat, batches: nat)
    requires epoch < maxEpochs
    ensures epoch * batches + batches == (epoch + 1) * batches <= maxEpochs * batches
  {
    MulMono(epoch + 1, maxEpochs, batches);
  }
}
