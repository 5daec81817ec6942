/** The asynchronous rollout protocol: trainer, collection thread, rollout workers and replay buffer
    (nemo_rl/algorithms/async_utils.py and the loop of `async_grpo_train` in nemo_rl/algorithms/grpo.py).

    A state machine: every lock-protected section and every remote call is one step, and any
    enabled step may happen next.  `split` describes a variant of the collector in which the pause
    check and the start of the worker are not one critical section.
 */
module AsyncProtocol {
  import opened Wrappers

  import opened ReplayBuffers

  datatype Config = Config(n: nat, maxAge: nat, start: int, split: bool)

  ghost predicate Legal(c: Config)
  {
    c.n > 0 && c.maxAge > 0 && c.start >= 0
  }

  /** Buffer size chosen by the trainer: room for two late steps per version. */
  function Capacity(c: Config): nat
  {
    c.n * c.maxAge * 2
  }

  function MaxInflight(c: Config): nat
  {
    if c.n * c.maxAge == 0 then 1 else c.n * c.maxAge
  }

  datatype Phase = Rolling | Pushed | Leaving | Cleaned | Detached

  datatype Worker = Worker(group: Record<nat>, phase: Phase)

  /** Program counter of the collection thread.  `g` is `generation_weight_version`, `last` the value
      read from the buffer, `target` the reserved version and `k` the next prompt. */
  datatype Launcher =
    | Idle
    | Versioned(g: int)
    | Read(g: int, last: int)
    | AtPrompt(g: int, target: int, k: nat)
    | AwaitingRefit(g: int, target: int, k: nat)
    | RefitSeen(g: int, target: int, k: nat)
    | Acquiring(g: int, target: int, k: nat)
    | Holding(g: int, target: int, k: nat)
    | PastGate(g: int, target: int, k: nat)
    | Stopped

  datatype Trainer = Sampling | Training | Refitting

  datatype Message = SetVersion(v: int) | ResumeAfterRefit

  /** Trainer side: its weight version and the calls it has posted to the collector, in order. */
  datatype TrainerPart = TrainerPart(w: int, phase: Trainer, mail: seq<Message>)

  /** Flags the collector's threads share; `version` is `current_weight_version`. */
  datatype Gate = Gate(version: int, refitCleared: bool, paused: bool, drained: bool, running: bool)

  /** `lost` counts the permits of launches that raised between acquiring one and starting the worker. */
  datatype Pool = Pool(permits: int, workers: seq<Worker>, lost: nat := 0)

  /** Targets being generated, and for the record every reservation ever made, the version of the
      latest one, and whether one was made for a target already pushed. */
  datatype Books = Books(reserved: set<int>, history: seq<int>, lastG: int, rereserved: bool)

  datatype State = State(
    trainer: TrainerPart, gate: Gate, launcher: Launcher, pool: Pool,
    buffer: seq<Record<nat>>, last: int, books: Books, failed: bool)

  function Initial(c: Config): State
  {
    State(TrainerPart(c.start, Sampling, []), Gate(c.start, true, false, false, true), Idle,
          Pool(MaxInflight(c), []), [], -1, Books({}, [], c.start, false), false)
  }

  // ---------------------------------------------------------------- target selection

  /** Least target a generator at version g may serve. */
  function Lowest(c: Config, g: int): int
  {
    if g == c.start then g else g + 1
  }

  /** First target in lo..hi above `last` that nobody is generating. */
  function FirstFree(lo: int, hi: int, last: int, reserved: set<int>): (t: Option<int>)
    ensures t.Some? ==> lo <= t.value <= hi && t.value > last && t.value !in reserved
    ensures t.Some? ==> forall x :: lo <= x < t.value ==> x <= last || x in reserved
    ensures t.None? ==> forall x :: lo <= x <= hi ==> x <= last || x in reserved
    decreases hi - lo
  {
    if lo > hi then None
    else if lo > last && lo !in reserved then Some(lo)
    else FirstFree(lo + 1, hi, last, reserved)
  }

  function NextTarget(c: Config, g: int, last: int, reserved: set<int>): Option<int>
  {
    FirstFree(Lowest(c, g), g + c.maxAge, last, reserved)
  }

  // ---------------------------------------------------------------- steps

  datatype LaunchStep =
    | ReadVersion | ReadLast | Reserve
    | SeeRefit | SkipRefit | WakeAfterRefit | RereadVersion
    | Acquire | StartWorker | CheckGate | StartPastGate | Abandon | StopCollecting

  datatype WorkStep = Push | Release | Fail | GiveUp | Cleanup | Detach | ReturnPermit

  datatype TrainStep = Sample | BeginRefit | FinishRefit | Deliver

  datatype GateStep = Pause | Drain | Resume

  datatype Step = Launch(l: LaunchStep) | Work(x: WorkStep, i: nat) | Train(t: TrainStep) | Operate(o: GateStep)

  predicate LaunchEnabled(c: Config, s: State, step: LaunchStep)
  {
    match step
    case ReadVersion => s.launcher.Idle? && s.gate.running
    case ReadLast => s.launcher.Versioned?
    case Reserve => s.launcher.Read?
    case SeeRefit => s.launcher.AtPrompt? && !s.gate.refitCleared
    case SkipRefit => s.launcher.AtPrompt? && s.gate.refitCleared
    case WakeAfterRefit => s.launcher.AwaitingRefit? && s.gate.refitCleared
    case RereadVersion => s.launcher.RefitSeen?
    case Acquire => s.launcher.Acquiring? && s.pool.permits > 0
    case StartWorker => s.launcher.Holding? && !s.gate.paused && !c.split
    case CheckGate => s.launcher.Holding? && !s.gate.paused && c.split
    case StartPastGate => s.launcher.PastGate?
    case Abandon => !s.launcher.Idle? && !s.launcher.Stopped?
    case StopCollecting => s.launcher.Idle?
  }

  predicate HoldsPermit(l: Launcher)
  {
    l.Holding? || l.PastGate?
  }

  /** Choose a target with the value of `last` read earlier, against the reservations of now. */
  function Reserved(c: Config, s: State): State
    requires s.launcher.Read?
  {
    var l, b := s.launcher, s.books;
    match NextTarget(c, l.g, l.last, b.reserved)
    case None => s.(launcher := Idle)
    case Some(t) =>
      s.(launcher := AtPrompt(l.g, t, 0),
         books := Books(b.reserved + {t}, b.history + [t], l.g, b.rereserved || t <= s.last))
  }

  /** A worker for the launcher's next prompt is registered and started. */
  function Started(c: Config, s: State): State
    requires s.launcher.Holding? || s.launcher.PastGate?
  {
    var l := s.launcher;
    s.(pool := s.pool.(workers := s.pool.workers + [Worker(Record(l.k, l.g, l.target), Rolling)]),
       launcher := if l.k + 1 < c.n then AtPrompt(l.g, l.target, l.k + 1) else Idle)
  }

  /** `Abandon` is an exception anywhere in the processing of a batch: the loop goes on with the next batch,
      the reservation stays, and a permit in hand is not returned. */
  function AfterLaunch(c: Config, s: State, step: LaunchStep): State
    requires LaunchEnabled(c, s, step)
  {
    var l := s.launcher;
    match step
    case ReadVersion => s.(launcher := Versioned(s.gate.version))
    case ReadLast => s.(launcher := Read(l.g, s.last))
    case Reserve => Reserved(c, s)
    case SeeRefit => s.(launcher := AwaitingRefit(l.g, l.target, l.k))
    case SkipRefit => s.(launcher := Acquiring(l.g, l.target, l.k))
    case WakeAfterRefit => s.(launcher := RefitSeen(l.g, l.target, l.k))
    case RereadVersion => s.(launcher := Acquiring(s.gate.version, l.target, l.k))
    case Acquire => s.(pool := s.pool.(permits := s.pool.permits - 1), launcher := Holding(l.g, l.target, l.k))
    case StartWorker => Started(c, s)
    case CheckGate => s.(launcher := PastGate(l.g, l.target, l.k))
    case StartPastGate => Started(c, s)
    case Abandon =>
      s.(launcher := Idle, pool := s.pool.(lost := if HoldsPermit(l) then s.pool.lost + 1 else s.pool.lost))
    case StopCollecting => s.(launcher := Stopped, gate := s.gate.(running := false))
  }

  predicate WorkEnabled(c: Config, s: State, step: WorkStep, i: nat)
  {
    i < |s.pool.workers| &&
    var phase := s.pool.workers[i].phase;
    match step
    case Push => phase.Rolling? && s.gate.running && |s.buffer| < Capacity(c)
    case Release => phase.Pushed?
    case Fail => phase.Rolling?
    case GiveUp => phase.Rolling? && !s.gate.running
    case Cleanup => phase.Leaving?
    case Detach => phase.Cleaned?
    case ReturnPermit => phase.Detached?
  }

  /** The pool after worker i moves to `phase`. */
  function Moved(pool: Pool, i: nat, phase: Phase): Pool
    requires i < |pool.workers|
  {
    pool.(workers := pool.workers[i := pool.workers[i].(phase := phase)])
  }

  function AfterWork(c: Config, s: State, step: WorkStep, i: nat): State
    requires WorkEnabled(c, s, step, i)
  {
    var r := s.pool.workers[i].group;
    match step
    case Push =>
      s.(pool := Moved(s.pool, i, Pushed), buffer := s.buffer + [r],
         last := if r.target > s.last then r.target else s.last)
    case Release =>
      s.(pool := Moved(s.pool, i, Leaving),
         books := s.books.(reserved := if r.item == 0 then s.books.reserved - {r.target} else s.books.reserved))
    case Fail => s.(pool := Moved(s.pool, i, Leaving), failed := true)
    case GiveUp => s.(pool := Moved(s.pool, i, Leaving))
    case Cleanup => s.(pool := Moved(s.pool, i, Cleaned), books := s.books.(reserved := s.books.reserved - {r.target}))
    case Detach => s.(pool := Moved(s.pool, i, Detached))
    case ReturnPermit => s.(pool := s.pool.(permits := s.pool.permits + 1, workers := Pop(s.pool.workers, i)))
  }

  ghost predicate TrainEnabled(c: Config, s: State, step: TrainStep)
  {
    match step
    case Sample => s.trainer.phase.Sampling? && Sampled(s.buffer, None, c.n, s.trainer.w, c.maxAge).Batch?
    case BeginRefit => s.trainer.phase.Training? && s.trainer.mail == []
    case FinishRefit => s.trainer.phase.Refitting?
    case Deliver => s.trainer.mail != []
  }

  function AfterTrain(c: Config, s: State, step: TrainStep): State
    requires TrainEnabled(c, s, step)
  {
    var t := s.trainer;
    match step
    case Sample => s.(trainer := t.(phase := Training), buffer := Kept(s.buffer, t.w, c.n))
    case BeginRefit => s.(trainer := t.(phase := Refitting), gate := s.gate.(refitCleared := false))
    case FinishRefit => s.(trainer := TrainerPart(t.w + 1, Sampling, t.mail + [SetVersion(t.w + 1), ResumeAfterRefit]))
    case Deliver =>
      s.(trainer := t.(mail := t.mail[1..]),
         gate := if t.mail[0].SetVersion? then s.gate.(version := t.mail[0].v) else s.gate.(refitCleared := true))
  }

  predicate NoneRegistered(pool: Pool)
  {
    forall i :: 0 <= i < |pool.workers| ==> pool.workers[i].phase == Detached
  }

  predicate OperateEnabled(s: State, step: GateStep)
  {
    match step
    case Pause => true
    case Drain => s.gate.paused && !s.failed && NoneRegistered(s.pool)
    case Resume => true
  }

  function AfterOperate(s: State, step: GateStep): State
  {
    match step
    case Pause => s.(gate := s.gate.(paused := true))
    case Drain => s.(gate := s.gate.(drained := true))
    case Resume => s.(gate := s.gate.(paused := false, drained := false))
  }

  ghost predicate Enabled(c: Config, s: State, step: Step)
  {
    match step
    case Launch(l) => LaunchEnabled(c, s, l)
    case Work(x, i) => WorkEnabled(c, s, x, i)
    case Train(t) => TrainEnabled(c, s, t)
    case Operate(o) => OperateEnabled(s, o)
  }

  function After(c: Config, s: State, step: Step): State
    requires Enabled(c, s, step)
  {
    match step
    case Launch(l) => AfterLaunch(c, s, l)
    case Work(x, i) => AfterWork(c, s, x, i)
    case Train(t) => AfterTrain(c, s, t)
    case Operate(o) => AfterOperate(s, o)
  }

  /** The state a run of steps leads to, if every one of them was enabled when it was taken. */
  ghost function Run(c: Config, s: State, steps: seq<Step>): Option<State>
  {
    if steps == [] then Some(s)
    else
      var before := Run(c, s, steps[..|steps| - 1]);
      var step := steps[|steps| - 1];
      if before.Some? && Enabled(c, before.value, step) then Some(After(c, before.value, step)) else None
  }

  ghost predicate Reaches(c: Config, steps: seq<Step>, s: State)
  {
    Run(c, Initial(c), steps) == Some(s)
  }

  lemma Extend(c: Config, steps: seq<Step>, s: State, step: Step)
    requires Reaches(c, steps, s) && Enabled(c, s, step)
    ensures Reaches(c, steps + [step], After(c, s, step))
  {
    assert (steps + [step])[..|steps|] == steps;
  }

  /** In a run that exists, the next step is enabled where the earlier ones lead. */
  lemma {:induction false} NextStep(c: Config, s: State, steps: seq<Step>, i: nat)
    requires i < |steps| && Run(c, s, steps).Some?
    ensures var before := Run(c, s, steps[..i]);
            && before.Some? && Enabled(c, before.value, steps[i])
            && Run(c, s, steps[..i + 1]) == Some(After(c, before.value, steps[i]))
    decreases |steps|
  {
    var init := steps[..|steps| - 1];
    if i == |steps| - 1 {
      assert steps[..i + 1] == steps;
    } else {
      NextStep(c, s, init, i);
      assert init[..i] == steps[..i] && init[..i + 1] == steps[..i + 1];
    }
  }

  // ---------------------------------------------------------------- semaphore and pause gate

  /** Free permits, live workers, the launcher's pending permit and the lost ones add up. */
  ghost predicate PermitsBalance(c: Config, s: State)
  {
    && s.pool.permits >= 0
    && s.pool.permits + |s.pool.workers| + (if HoldsPermit(s.launcher) then 1 else 0) + s.pool.lost == MaxInflight(c)
  }

  lemma PermitsKept(c: Config, s: State, step: Step)
    requires PermitsBalance(c, s) && Enabled(c, s, step)
    ensures PermitsBalance(c, After(c, s, step))
  {
  }

  /** In every reachable state, after failures of workers and of the launcher, every permit is free, held or
      lost with an abandoned launch, so live workers never exceed the in-flight limit less the lost permits. */
  lemma {:induction false} SemaphoreConserved(c: Config, steps: seq<Step>, s: State)
    requires Reaches(c, steps, s)
    ensures PermitsBalance(c, s) && |s.pool.workers| <= MaxInflight(c) - s.pool.lost
    decreases |steps|
  {
    if steps != [] {
      var before := Run(c, Initial(c), steps[..|steps| - 1]).value;
      SemaphoreConserved(c, steps[..|steps| - 1], before);
      PermitsKept(c, before, steps[|steps| - 1]);
    }
  }

  /** An exception in the launcher while it holds a permit. */
  ghost predicate Leaks(s: State, step: Step)
  {
    step == Launch(Abandon) && HoldsPermit(s.launcher)
  }

  /** How often a run leaks a permit. */
  ghost function LeakCount(c: Config, steps: seq<Step>): nat
  {
    if steps == [] then 0
    else
      var before := Run(c, Initial(c), steps[..|steps| - 1]);
      var leaks := before.Some? && Leaks(before.value, steps[|steps| - 1]);
      LeakCount(c, steps[..|steps| - 1]) + (if leaks then 1 else 0)
  }

  /** Step i of a run leaks. */
  ghost predicate LeaksAt(c: Config, steps: seq<Step>, i: nat)
    requires i < |steps|
  {
    var before := Run(c, Initial(c), steps[..i]);
    before.Some? && Leaks(before.value, steps[i])
  }

  lemma {:induction false} LostIsLeakCount(c: Config, steps: seq<Step>, s: State)
    requires Reaches(c, steps, s)
    ensures s.pool.lost == LeakCount(c, steps)
    decreases |steps|
  {
    if steps != [] {
      var before := Run(c, Initial(c), steps[..|steps| - 1]).value;
      LostIsLeakCount(c, steps[..|steps| - 1], before);
      LostMoves(c, before, steps[|steps| - 1]);
    }
  }

  lemma LostMoves(c: Config, s: State, step: Step)
    requires Enabled(c, s, step)
    ensures After(c, s, step).pool.lost == s.pool.lost + (if Leaks(s, step) then 1 else 0)
  {
  }

  lemma {:induction false} NoLeaks(c: Config, steps: seq<Step>)
    ensures LeakCount(c, steps) == 0 <==> forall i: nat :: i < |steps| ==> !LeaksAt(c, steps, i)
    decreases |steps|
  {
    if steps != [] {
      var init := steps[..|steps| - 1];
      NoLeaks(c, init);
      forall i: nat | i < |init|
        ensures LeaksAt(c, init, i) == LeaksAt(c, steps, i)
      {
        assert init[..i] == steps[..i];
      }
      assert LeaksAt(c, steps, |init|) <==> LeakCount(c, steps) == LeakCount(c, init) + 1;
      if forall i: nat :: i < |init| ==> !LeaksAt(c, init, i) {
        assert forall i: nat :: i < |init| ==> !LeaksAt(c, steps, i);
      }
    }
  }

  /** At the end of a run all permits are free, with live workers or in the launcher's hand if and only if no
      batch was abandoned while the launcher held one. */
  lemma PermitsReturnExactlyWhen(c: Config, steps: seq<Step>, s: State)
    requires Reaches(c, steps, s)
    ensures s.pool.permits + |s.pool.workers| + (if HoldsPermit(s.launcher) then 1 else 0) == MaxInflight(c)
       <==> forall i: nat :: i < |steps| ==> !LeaksAt(c, steps, i)
  {
    SemaphoreConserved(c, steps, s);
    LostIsLeakCount(c, steps, s);
    NoLeaks(c, steps);
  }

  /** Drained: collection is paused and no worker is registered, so nothing is generating. */
  ghost predicate Quiet(c: Config, s: State)
  {
    && (s.gate.drained ==> s.gate.paused && NoneRegistered(s.pool))
    && !s.launcher.PastGate?
  }

  lemma QuietKept(c: Config, s: State, step: Step)
    requires !c.split && Quiet(c, s) && Enabled(c, s, step)
    ensures Quiet(c, After(c, s, step))
    ensures s.gate.drained && step != Operate(Resume) ==> After(c, s, step).gate.drained
  {
  }

  /** In every interleaving, from the moment the drain returns until collection is resumed, nothing
      is generating and no step starts a worker. */
  lemma {:induction false} DrainIsSafe(c: Config, steps: seq<Step>, s: State)
    requires !c.split && Reaches(c, steps, s)
    ensures Quiet(c, s)
    ensures forall step :: Enabled(c, s, step) && s.gate.drained && step != Operate(Resume) ==>
              After(c, s, step).gate.drained && NoneRegistered(After(c, s, step).pool)
    decreases |steps|
  {
    if steps != [] {
      var before := Run(c, Initial(c), steps[..|steps| - 1]).value;
      DrainIsSafe(c, steps[..|steps| - 1], before);
      QuietKept(c, before, steps[|steps| - 1]);
    }
    forall step | Enabled(c, s, step) && s.gate.drained && step != Operate(Resume)
      ensures After(c, s, step).gate.drained && NoneRegistered(After(c, s, step).pool)
    {
      QuietKept(c, s, step);
    }
  }
}
