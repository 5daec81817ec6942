/** The running system as objects: the fields of `AsyncTrajectoryCollector`
    (nemo_rl/algorithms/async_utils.py) and of its replay buffer, updated by the critical sections and
    remote calls of launcher, workers, trainer and operator.

    The methods decide by these fields.  A ghost field holds the state of module AsyncProtocol that the object
    stands for; `Valid` ties the fields to it, and every method takes it exactly one step, or none when it
    waits.  So the results about all runs of the protocol hold of the object, as `Collect` states.
 */
module TrajectoryCollector {
  import opened Wrappers

  import opened ReplayBuffers
  import P = AsyncProtocol
  import S = AsyncStaleness

  datatype Drain = Drained | Pending(count: nat) | WorkerError(error: string)

  /** What the threads hold themselves: program counters and locals within the protocol state, the identities of
      the worker threads that are alive, in order, and the next identity. */
  datatype Threads = Threads(now: P.State, ids: seq<nat>, next: nat)

  function Advanced(c: P.Config, t: Threads, step: P.Step): (u: Threads)
    requires P.Enabled(c, t.now, step) && |t.ids| == |t.now.pool.workers|
    ensures u.now == P.After(c, t.now, step)
  {
    var now := P.After(c, t.now, step);
    match step
    case Launch(StartWorker) => Threads(now, t.ids + [t.next], t.next + 1)
    case Work(ReturnPermit, i) => Threads(now, Pop(t.ids, i), t.next)
    case _ => Threads(now, t.ids, t.next)
  }

  class Collector {
    const settings: P.Config
    const buffer: ReplayBuffer<nat>
    var currentVersion: int
    var refitPauseCleared: bool
    var manualPauseCleared: bool
    var running: bool
    var generating: set<int>
    var permits: int
    var inflight: set<nat>
    var workerError: Option<string>
    /** The threads for which `is_alive` answers True. */
    var alive: set<nat>
    ghost var state: P.State
    /** The threads alive, worker by worker. */
    ghost var ids: seq<nat>

    // -------------------------------------------------------------- fields and protocol

    ghost predicate FlagsAgree()
      reads this
    {
      && currentVersion == state.gate.version && refitPauseCleared == state.gate.refitCleared
      && manualPauseCleared == !state.gate.paused && running == state.gate.running
      && generating == state.books.reserved && permits == state.pool.permits && workerError.Some? == state.failed
    }

    /** Of the threads alive, the in-flight set holds exactly those that have not detached.  It may also hold
        threads that are not alive: a thread is registered before it is started, and the start may raise. */
    ghost predicate ThreadsAgree()
      reads this
    {
      && |ids| == |state.pool.workers| && (forall i, j :: 0 <= i < j < |ids| ==> ids[i] != ids[j])
      && (forall i :: 0 <= i < |ids| ==> (ids[i] in inflight <==> state.pool.workers[i].phase != P.Detached))
      && (forall t :: t in alive <==> t in ids)
    }

    ghost predicate BufferAgrees()
      reads this, buffer
    {
      && buffer.Valid() && buffer.Contents() == state.buffer && buffer.lastTarget == state.last
      && buffer.maxSize == P.Capacity(settings)
    }

    ghost predicate Valid()
      reads this, buffer
    {
      !settings.split && !state.launcher.PastGate? && FlagsAgree() && ThreadsAgree() && BufferAgrees()
    }

    /** `async_grpo_train` creates the buffer with room for two late steps per version. */
    constructor (n: nat, age: nat, start: int)
      requires n > 0 && age > 0
      ensures Valid() && fresh(buffer) && settings == P.Config(n, age, start, false) && state == P.Initial(settings)
      ensures ids == [] && inflight == {} && alive == {} && generating == {} && workerError == None
      ensures buffer.maxSize == n * age * 2 && permits == n * age && currentVersion == start
      ensures running && refitPauseCleared && manualPauseCleared
    {
      var c := P.Config(n, age, start, false);
      RoomForGroups(n, age);
      settings := c;
      buffer := new ReplayBuffer<nat>(P.Capacity(c));
      currentVersion, refitPauseCleared, manualPauseCleared, running := start, true, true, true;
      generating, inflight, alive, workerError, permits := {}, {}, {}, None, P.MaxInflight(c);
      state, ids := P.Initial(c), [];
    }

    // -------------------------------------------------------------- target selection

    /** The versions a generator at version g may serve, in order. */
    function TargetWeights(g: int): seq<int>
    {
      if g == settings.start then seq(settings.maxAge + 1, i => settings.start + i)
      else seq(settings.maxAge, i requires 0 <= i => g + (i + 1))
    }

    lemma WeightsAreConsecutive(g: int)
      ensures var ts := TargetWeights(g);
              && |ts| == g + settings.maxAge + 1 - P.Lowest(settings, g)
              && forall i :: 0 <= i < |ts| ==> ts[i] == P.Lowest(settings, g) + i
    {
    }

    /** Version x lies in the window of a generator at version g: at the start version that is the current version
        and the next `maxAge` ones, later only the next ones. */
    predicate InWindow(g: int, x: int)
    {
      (if g == settings.start then settings.start else g + 1) <= x <= g + settings.maxAge
    }

    /** A version is taken when it was pushed or passed, or is being generated. */
    predicate Taken(last: int, x: int)
      reads this`generating
    {
      x <= last || x in generating
    }

    /** The first version of the window that is not taken. */
    method FindTarget(g: int, last: int) returns (t: Option<int>)
      ensures t.None? <==> forall x :: InWindow(g, x) ==> Taken(last, x)
      ensures t.Some? ==> InWindow(g, t.value) && !Taken(last, t.value)
      ensures t.Some? ==> forall x :: InWindow(g, x) && !Taken(last, x) ==> t.value <= x
      ensures t == P.NextTarget(settings, g, last, generating)
    {
      var ts := TargetWeights(g);
      WeightsAreConsecutive(g);
      ghost var lo := P.Lowest(settings, g);
      for i := 0 to |ts|
        invariant P.NextTarget(settings, g, last, generating)
                  == P.FirstFree(lo + i, g + settings.maxAge, last, generating)
      {
        if ts[i] > last && ts[i] !in generating {
          assert InWindow(g, ts[i]) && !Taken(last, ts[i]);
          return Some(ts[i]);
        }
      }
      t := None;
    }

    /** Collection waits exactly when a generator at the current version has no target left to serve. */
    method ShouldPauseForGenerationLimits() returns (pause: bool)
      requires Valid()
      ensures pause <==> forall x :: InWindow(currentVersion, x) ==> Taken(buffer.lastTarget, x)
      ensures pause <==> P.NextTarget(settings, currentVersion, buffer.lastTarget, generating) == None
    {
      var t := FindTarget(currentVersion, buffer.lastTarget);
      pause := t.None?;
    }

    // -------------------------------------------------------------- the collection thread

    method ReadVersion() returns (g: int)
      requires Valid() && P.LaunchEnabled(settings, state, P.ReadVersion)
      modifies this`state
      ensures Valid() && state == P.AfterLaunch(settings, old(state), P.ReadVersion)
      ensures state.launcher == P.Versioned(g)
      ensures g == currentVersion
    {
      g := currentVersion;
      state := P.AfterLaunch(settings, state, P.ReadVersion);
    }

    method ReadLast() returns (last: int)
      requires Valid() && P.LaunchEnabled(settings, state, P.ReadLast)
      modifies this`state
      ensures Valid() && state == P.AfterLaunch(settings, old(state), P.ReadLast)
      ensures state.launcher.Read? && state.launcher.last == last
      ensures last == buffer.lastTarget
    {
      last := buffer.lastTarget;
      state := P.AfterLaunch(settings, state, P.ReadLast);
    }

    /** The locked part of `_get_next_target_for_generation`. */
    method Reserve(g: int, last: int) returns (t: Option<int>)
      requires Valid() && state.launcher == P.Read(g, last)
      modifies this`state, this`generating
      ensures Valid() && state == P.AfterLaunch(settings, old(state), P.Reserve)
      ensures t.None? <==> forall x :: InWindow(g, x) ==> old(Taken(last, x))
      ensures t.Some? ==> InWindow(g, t.value) && !old(Taken(last, t.value))
      ensures t.Some? ==> forall x :: InWindow(g, x) && !old(Taken(last, x)) ==> t.value <= x
      ensures generating == old(generating) + (if t.Some? then {t.value} else {})
      ensures state.launcher == if t.Some? then P.AtPrompt(g, t.value, 0) else P.Idle
    {
      t := FindTarget(g, last);
      if t.Some? {
        generating := generating + {t.value};
      }
      state := P.AfterLaunch(settings, state, P.Reserve);
    }

    /** The refit check before a prompt: true means wait. */
    method RefitInProgress() returns (wait: bool)
      requires Valid() && state.launcher.AtPrompt?
      modifies this`state
      ensures wait == !refitPauseCleared == !old(state).gate.refitCleared
      ensures Valid() && state == P.AfterLaunch(settings, old(state), if wait then P.SeeRefit else P.SkipRefit)
      ensures var l := old(state).launcher;
              state.launcher == if wait then P.AwaitingRefit(l.g, l.target, l.k) else P.Acquiring(l.g, l.target, l.k)
    {
      wait := !refitPauseCleared;
      state := P.AfterLaunch(settings, state, if wait then P.SeeRefit else P.SkipRefit);
    }

    /** One look at the refit event of a waiting launcher. */
    method RefitOver() returns (over: bool)
      requires Valid() && state.launcher.AwaitingRefit?
      modifies this`state
      ensures Valid() && over == refitPauseCleared == old(state).gate.refitCleared
      ensures state == if over then P.AfterLaunch(settings, old(state), P.WakeAfterRefit) else old(state)
    {
      over := refitPauseCleared;
      if over {
        state := P.AfterLaunch(settings, state, P.WakeAfterRefit);
      }
    }

    method RereadVersion() returns (g: int)
      requires Valid() && state.launcher.RefitSeen?
      modifies this`state
      ensures Valid() && state == P.AfterLaunch(settings, old(state), P.RereadVersion) && state.launcher.g == g
      ensures g == currentVersion && state.launcher == P.Acquiring(g, old(state).launcher.target, old(state).launcher.k)
    {
      g := currentVersion;
      state := P.AfterLaunch(settings, state, P.RereadVersion);
    }

    /** One try of the semaphore. */
    method TryAcquire() returns (ok: bool)
      requires Valid() && state.launcher.Acquiring?
      modifies this`state, this`permits
      ensures Valid() && ok == (old(permits) > 0) == (old(state).pool.permits > 0)
      ensures state == if ok then P.AfterLaunch(settings, old(state), P.Acquire) else old(state)
      ensures permits == if ok then old(permits) - 1 else old(permits)
    {
      ok := permits > 0;
      if ok {
        permits := permits - 1;
        state := P.AfterLaunch(settings, state, P.Acquire);
      }
    }

    /** One pass of `_start_worker_when_unpaused`: check, register and start under one lock.  When the start
        raises, the thread stays registered and the batch is given up. */
    method StartIfUnpaused(worker: nat, raises: bool) returns (started: bool)
      requires Valid() && state.launcher.Holding? && worker !in inflight && worker !in alive
      modifies this`state, this`ids, this`alive, this`inflight
      ensures started == manualPauseCleared == !old(state).gate.paused
      ensures state == if !started then old(state)
                       else P.AfterLaunch(settings, old(state), if raises then P.Abandon else P.StartWorker)
      ensures Valid() && inflight == if started then old(inflight) + {worker} else old(inflight)
      ensures ids == if started && !raises then old(ids) + [worker] else old(ids)
      ensures var l := old(state).launcher;
              started && !raises ==>
                && state.pool.workers == old(state).pool.workers + [P.Worker(Record(l.k, l.g, l.target), P.Rolling)]
                && state.launcher == if l.k + 1 < settings.n then P.AtPrompt(l.g, l.target, l.k + 1) else P.Idle
    {
      started := manualPauseCleared;
      if started {
        inflight := inflight + {worker};
        if raises {
          state := P.AfterLaunch(settings, state, P.Abandon);
        } else {
          alive := alive + {worker};
          state, ids := P.AfterLaunch(settings, state, P.StartWorker), ids + [worker];
        }
      }
    }

    /** An exception elsewhere in `_process_batch`: no field changes. */
    ghost method AbandonBatch()
      requires Valid() && P.LaunchEnabled(settings, state, P.Abandon)
      modifies this`state
      ensures Valid() && state == P.AfterLaunch(settings, old(state), P.Abandon)
    {
      state := P.AfterLaunch(settings, state, P.Abandon);
    }

    /** Threads that are no longer alive leave the in-flight set. */
    method CleanupFinishedThreads()
      requires Valid()
      modifies this`inflight
      ensures Valid() && inflight == set t | t in old(inflight) && t in alive
    {
      var finished := set t | t in inflight && t !in alive;
      inflight := inflight - finished;
    }

    method StopCollecting()
      requires Valid() && state.launcher.Idle?
      modifies this`state, this`running
      ensures Valid() && state == P.AfterLaunch(settings, old(state), P.StopCollecting)
      ensures !running
    {
      running := false;
      state := P.AfterLaunch(settings, state, P.StopCollecting);
    }

    // -------------------------------------------------------------- a worker

    /** Worker i, whose group is (prompt, version, target), tries to push it. */
    method PushGroup(prompt: nat, version: int, target: int, ghost i: nat) returns (success: bool)
      requires Valid() && running
      requires i < |ids| && state.pool.workers[i] == P.Worker(Record(prompt, version, target), P.Rolling)
      modifies this`state, buffer
      ensures Valid() && success == (|old(state).buffer| < P.Capacity(settings))
      ensures state == if success then P.AfterWork(settings, old(state), P.Push, i) else old(state)
      ensures success ==> buffer.Contents() == old(buffer.Contents()) + [Record(prompt, version, target)]
      ensures !success ==> buffer.Contents() == old(buffer.Contents())
    {
      success := buffer.Push(prompt, version, target);
      if success {
        state := P.AfterWork(settings, state, P.Push, i);
      }
    }

    /** The reservation goes with the first prompt group that was pushed. */
    method ReleaseAfterPush(prompt: nat, target: int, ghost i: nat)
      requires Valid() && P.WorkEnabled(settings, state, P.Release, i)
      requires state.pool.workers[i].group.item == prompt && state.pool.workers[i].group.target == target
      modifies this`state, this`generating
      ensures Valid() && state == P.AfterWork(settings, old(state), P.Release, i)
      ensures generating == if prompt == 0 then old(generating) - {target} else old(generating)
    {
      if prompt == 0 {
        if target in generating {
          generating := generating - {target};
        }
      }
      state := P.AfterWork(settings, state, P.Release, i);
    }

    method ReportFailure(message: string, ghost i: nat)
      requires Valid() && P.WorkEnabled(settings, state, P.Fail, i)
      modifies this`state, this`workerError, buffer
      ensures Valid() && state == P.AfterWork(settings, old(state), P.Fail, i)
      ensures workerError == Some(message) && buffer.workerError == Some(message)
    {
      workerError := Some(message);
      buffer.ReportWorkerError(message);
      state := P.AfterWork(settings, state, P.Fail, i);
    }

    /** The condition of the push loop, which ends once collection has stopped. */
    method KeepsPushing(ghost i: nat) returns (on: bool)
      requires Valid() && i < |ids| && state.pool.workers[i].phase.Rolling?
      modifies this`state
      ensures on == running == old(state).gate.running
      ensures Valid() && state == if on then old(state) else P.AfterWork(settings, old(state), P.GiveUp, i)
    {
      on := running;
      if !on {
        state := P.AfterWork(settings, state, P.GiveUp, i);
      }
    }

    /** The reservation, if it is still there, on the way out. */
    method ReleaseTarget(target: int, ghost i: nat)
      requires Valid() && P.WorkEnabled(settings, state, P.Cleanup, i) && state.pool.workers[i].group.target == target
      modifies this`state, this`generating
      ensures Valid() && state == P.AfterWork(settings, old(state), P.Cleanup, i)
      ensures generating == old(generating) - {target}
    {
      if target in generating {
        generating := generating - {target};
      }
      state := P.AfterWork(settings, state, P.Cleanup, i);
    }

    /** A worker takes itself off the in-flight set. */
    method Detach(worker: nat, ghost i: nat)
      requires Valid() && P.WorkEnabled(settings, state, P.Detach, i) && ids[i] == worker
      modifies this`state, this`inflight
      ensures Valid() && state == P.AfterWork(settings, old(state), P.Detach, i)
      ensures inflight == old(inflight) - {worker}
    {
      if worker in inflight {
        inflight := inflight - {worker};
      }
      state := P.AfterWork(settings, state, P.Detach, i);
    }

    /** The worker's last step: it gives its permit back and ends. */
    method ReturnPermit(worker: nat, ghost i: nat)
      requires Valid() && P.WorkEnabled(settings, state, P.ReturnPermit, i) && ids[i] == worker
      modifies this`state, this`ids, this`alive, this`permits
      ensures Valid() && ids == Pop(old(ids), i) && state == P.AfterWork(settings, old(state), P.ReturnPermit, i)
      ensures permits == old(permits) + 1 && alive == old(alive) - {worker}
    {
      permits := permits + 1;
      alive := alive - {worker};
      PopIdentity(ids, i);
      state, ids := P.AfterWork(settings, state, P.ReturnPermit, i), Pop(ids, i);
    }

    // -------------------------------------------------------------- the trainer

    /** A sample at the trainer's version: one step when it returns a batch, none otherwise. */
    method SampleBatch(w: int) returns (r: Outcome<nat>)
      requires Valid() && state.trainer.phase.Sampling? && state.trainer.w == w
      modifies this`state, buffer
      ensures Valid()
      ensures r == Sampled(old(buffer.Contents()), buffer.workerError, settings.n, w, settings.maxAge)
      ensures buffer.workerError == old(buffer.workerError)
      ensures r.Batch? ==> P.TrainEnabled(settings, old(state), P.Sample)
      ensures r.Batch? ==> state == P.AfterTrain(settings, old(state), P.Sample)
      ensures !r.Batch? ==> state == old(state)
    {
      r := buffer.Sample(settings.n, w, settings.maxAge);
      if r.Batch? {
        state := P.AfterTrain(settings, state, P.Sample);
      }
    }

    /** `prepare_for_refit` clears the refit event. */
    method PrepareForRefit()
      requires Valid() && P.TrainEnabled(settings, state, P.BeginRefit)
      modifies this`state, this`refitPauseCleared
      ensures Valid() && state == P.AfterTrain(settings, old(state), P.BeginRefit)
      ensures !refitPauseCleared
    {
      refitPauseCleared := false;
      state := P.AfterTrain(settings, state, P.BeginRefit);
    }

    /** The trainer posts the new version and the end of the refit; no field changes yet. */
    ghost method PostNewVersion()
      requires Valid() && P.TrainEnabled(settings, state, P.FinishRefit)
      modifies this`state
      ensures Valid() && state == P.AfterTrain(settings, old(state), P.FinishRefit)
      ensures var t := old(state).trainer;
              state.trainer == P.TrainerPart(t.w + 1, P.Sampling, t.mail + [P.SetVersion(t.w + 1), P.ResumeAfterRefit])
    {
      state := P.AfterTrain(settings, state, P.FinishRefit);
    }

    /** The first posted call arrives: `set_weight_version`. */
    method SetWeightVersion(version: int)
      requires Valid() && state.trainer.mail != [] && state.trainer.mail[0] == P.SetVersion(version)
      modifies this`state, this`currentVersion
      ensures Valid() && state == P.AfterTrain(settings, old(state), P.Deliver)
      ensures currentVersion == version && state.trainer.mail == old(state).trainer.mail[1..]
    {
      currentVersion := version;
      state := P.AfterTrain(settings, state, P.Deliver);
    }

    /** The first posted call arrives: `resume_after_refit`. */
    method ResumeAfterRefit()
      requires Valid() && state.trainer.mail != [] && state.trainer.mail[0] == P.ResumeAfterRefit
      modifies this`state, this`refitPauseCleared
      ensures Valid() && state == P.AfterTrain(settings, old(state), P.Deliver)
      ensures refitPauseCleared && state.trainer.mail == old(state).trainer.mail[1..]
    {
      refitPauseCleared := true;
      state := P.AfterTrain(settings, state, P.Deliver);
    }

    // -------------------------------------------------------------- pausing for validation

    method Pause()
      requires Valid()
      modifies this`state, this`manualPauseCleared
      ensures Valid() && state == P.AfterOperate(old(state), P.Pause)
      ensures !manualPauseCleared
    {
      manualPauseCleared := false;
      state := P.AfterOperate(state, P.Pause);
    }

    method Resume()
      requires Valid()
      modifies this`state, this`manualPauseCleared
      ensures Valid() && state == P.AfterOperate(old(state), P.Resume)
      ensures manualPauseCleared
    {
      manualPauseCleared := true;
      state := P.AfterOperate(state, P.Resume);
    }

    /** One pass of `wait_for_pending_generations` while paused.  It reports "drained", one protocol step,
        exactly when no worker failed and every thread alive has detached, whatever threads that never started
        are still registered. */
    method DrainPass() returns (d: Drain)
      requires Valid() && state.gate.paused
      modifies this`state, this`inflight
      ensures Valid()
      ensures d == Drained <==> workerError.None? && forall t :: t in old(inflight) ==> t !in alive
      ensures d == Drained <==> P.OperateEnabled(old(state), P.Drain)
      ensures state == if d == Drained then P.AfterOperate(old(state), P.Drain) else old(state)
      ensures d.WorkerError? <==> workerError.Some?
      ensures inflight == if d.WorkerError? then old(inflight) else set t | t in old(inflight) && t in alive
      ensures d.Pending? ==> d.count == |inflight| > 0
    {
      if workerError.Some? {
        return WorkerError(workerError.value);
      }
      CleanupFinishedThreads();
      if inflight == {} {
        assert P.NoneRegistered(state.pool) by {
          forall i | 0 <= i < |ids|
            ensures state.pool.workers[i].phase == P.Detached
          {
            assert ids[i] !in inflight;
          }
        }
        state := P.AfterOperate(state, P.Drain);
        d := Drained;
      } else {
        ghost var t :| t in inflight;
        ghost var i :| 0 <= i < |ids| && ids[i] == t;
        assert state.pool.workers[i].phase != P.Detached;
        d := Pending(|inflight|);
      }
    }

    // -------------------------------------------------------------- the object as runs of the protocol

    /** The object's ghost fields are what the threads are at; the next identity is free. */
    ghost predicate At(t: Threads)
      reads this
    {
      t.now == state && t.ids == ids && forall x :: x in inflight || x in ids ==> x < t.next
    }

    method PerformLaunch(step: P.LaunchStep, t: Threads)
      requires Valid() && At(t) && P.LaunchEnabled(settings, state, step)
      modifies this
      ensures Valid() && At(Advanced(settings, t, P.Launch(step)))
    {
      var l := t.now.launcher;
      match step {
        case ReadVersion => var _ := ReadVersion();
        case ReadLast => var _ := ReadLast();
        case Reserve => var _ := Reserve(l.g, l.last);
        case SeeRefit => var _ := RefitInProgress();
        case SkipRefit => var _ := RefitInProgress();
        case WakeAfterRefit => var _ := RefitOver();
        case RereadVersion => var _ := RereadVersion();
        case Acquire => var _ := TryAcquire();
        case StartWorker => var _ := StartIfUnpaused(t.next, false);
        case Abandon => AbandonBatch();
        case StopCollecting => StopCollecting();
      }
    }

    method PerformWork(step: P.WorkStep, i: nat, t: Threads)
      requires Valid() && At(t) && P.WorkEnabled(settings, state, step, i)
      modifies this, buffer
      ensures Valid() && At(Advanced(settings, t, P.Work(step, i)))
    {
      var group := t.now.pool.workers[i].group;
      match step {
        case Push => var _ := PushGroup(group.item, group.version, group.target, i);
        case Release => ReleaseAfterPush(group.item, group.target, i);
        case Fail => ReportFailure("failed", i);
        case GiveUp => var _ := KeepsPushing(i);
        case Cleanup => ReleaseTarget(group.target, i);
        case Detach => Detach(t.ids[i], i);
        case ReturnPermit =>
          PopIdentity(t.ids, i);
          ReturnPermit(t.ids[i], i);
      }
    }

    method PerformTrain(step: P.TrainStep, t: Threads)
      requires Valid() && At(t) && P.TrainEnabled(settings, state, step)
      requires step == P.Sample ==> buffer.workerError == None
      modifies this, buffer
      ensures Valid() && At(Advanced(settings, t, P.Train(step)))
    {
      match step {
        case Sample => var _ := SampleBatch(t.now.trainer.w);
        case BeginRefit => PrepareForRefit();
        case FinishRefit => PostNewVersion();
        case Deliver =>
          match t.now.trainer.mail[0] {
            case SetVersion(v) => SetWeightVersion(v);
            case ResumeAfterRefit => ResumeAfterRefit();
          }
      }
    }

    method PerformOperate(step: P.GateStep, t: Threads)
      requires Valid() && At(t) && P.OperateEnabled(state, step)
      modifies this
      ensures Valid() && At(Advanced(settings, t, P.Operate(step)))
    {
      match step {
        case Pause => Pause();
        case Resume => Resume();
        case Drain => var _ := DrainPass();
      }
    }

    method Perform(step: P.Step, t: Threads)
      requires Valid() && At(t) && P.Enabled(settings, state, step)
      requires step == P.Train(P.Sample) ==> buffer.workerError == None
      modifies this, buffer
      ensures Valid() && At(Advanced(settings, t, step)) && state == P.After(settings, old(state), step)
    {
      match step {
        case Launch(l) => PerformLaunch(l, t);
        case Work(x, i) => PerformWork(x, i, t);
        case Train(x) => PerformTrain(x, t);
        case Operate(o) => PerformOperate(o, t);
      }
    }

    /** Any run of the protocol, call by call, by threads at `start`.  It ends early only where the trainer
        samples after a worker has reported a failure, which raises. */
    method PerformAll(steps: seq<P.Step>, start: Threads) returns (done: nat)
      requires Valid() && At(start) && P.Run(settings, state, steps).Some?
      modifies this, buffer
      ensures Valid() && done <= |steps| && P.Run(settings, old(state), steps[..done]) == Some(state)
      ensures done < |steps| ==> steps[done] == P.Train(P.Sample) && buffer.workerError.Some?
    {
      done := 0;
      var t := start;
      while done < |steps|
        invariant Valid() && At(t) && done <= |steps| && P.Run(settings, old(state), steps[..done]) == Some(state)
      {
        P.NextStep(settings, old(state), steps, done);
        if steps[done] == P.Train(P.Sample) && buffer.workerError.Some? {
          return;
        }
        Perform(steps[done], t);
        t := Advanced(settings, t, steps[done]);
        done := done + 1;
      }
    }

    /** The protocol's results, said of the fields of an object that a run has led to. */
    lemma FieldsAreSafe(steps: seq<P.Step>)
      requires P.Legal(settings) && Valid() && P.Reaches(settings, steps, state)
      ensures 0 <= permits <= P.MaxInflight(settings) - |ids|
      ensures state.gate.drained ==> !manualPauseCleared && forall t :: t in alive ==> t !in inflight
      ensures S.Sound(state) ==> forall r :: r in buffer.Contents() ==>
                S.AgeInBounds(settings, state, r.target, r.version)
      ensures S.Sound(state) ==> |buffer.Contents()| + |S.Rolling(state.pool.workers)| <= buffer.maxSize
    {
      P.SemaphoreConserved(settings, steps, state);
      P.DrainIsSafe(settings, steps, state);
      if S.Sound(state) {
        S.BoundedStaleness(settings, steps, state);
        S.ReachableInv(settings, steps, state);
        S.OccupancyBound(settings, state);
      }
    }
  }

  /** A new collector taken through any run: permits are conserved, a drained collector generates nothing, and
      without failure or a repeated reservation everything buffered is in time and fits. */
  method Collect(c: P.Config, steps: seq<P.Step>) returns (collector: Collector, done: nat)
    requires P.Legal(c) && !c.split && P.Run(c, P.Initial(c), steps).Some?
    ensures fresh(collector) && collector.Valid() && collector.settings == c
    ensures done <= |steps| && P.Reaches(c, steps[..done], collector.state)
    ensures done < |steps| ==> steps[done] == P.Train(P.Sample) && collector.buffer.workerError.Some?
    ensures 0 <= collector.permits <= P.MaxInflight(c) - |collector.ids|
    ensures collector.state.gate.drained ==>
              !collector.manualPauseCleared && forall t :: t in collector.alive ==> t !in collector.inflight
    ensures S.Sound(collector.state) ==> forall r :: r in collector.buffer.Contents() ==>
              S.AgeInBounds(c, collector.state, r.target, r.version)
    ensures S.Sound(collector.state) ==>
              |collector.buffer.Contents()| + |S.Rolling(collector.state.pool.workers)| <= collector.buffer.maxSize
  {
    collector := new Collector(c.n, c.maxAge, c.start);
    done := collector.PerformAll(steps, Threads(P.Initial(c), [], 0));
    collector.FieldsAreSafe(steps[..done]);
  }

  /** Without worker i exactly its identity is gone. */
  lemma PopIdentity(ids: seq<nat>, i: nat)
    requires i < |ids| && forall a, b :: 0 <= a < b < |ids| ==> ids[a] != ids[b]
    ensures forall t :: t in Pop(ids, i) <==> t in ids && t != ids[i]
  {
    forall t | t in ids && t != ids[i]
      ensures t in Pop(ids, i)
    {
      var j :| 0 <= j < |ids| && ids[j] == t;
      assert Pop(ids, i)[if j < i then j else j - 1] == t;
    }
  }

  lemma RoomForGroups(n: nat, age: nat)
    requires n > 0 && age > 0
    ensures n * age * 2 > 0
  {
  }
}
