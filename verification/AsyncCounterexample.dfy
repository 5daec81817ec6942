/** Two runs that show why the protocol's assumptions are needed: a worker that slips through a pause
    gate whose check and start are separate, and a target that is generated twice because the last
    target was read before the reservation lock was taken.
 */
module AsyncCounterexample {
  import opened Wrappers

  import opened ReplayBuffers
  import opened AsyncProtocol
  import opened AsyncStaleness

  ghost predicate Reachable(c: Config, s: State)
  {
    exists steps :: Reaches(c, steps, s)
  }

  function InFlight(pool: Pool): seq<int>
  {
    AsyncStaleness.Rolling(pool.workers)
  }

  lemma FromStart(c: Config)
    ensures Reachable(c, Initial(c))
  {
    assert Reaches(c, [], Initial(c));
  }

  lemma ThenLaunch(c: Config, s: State, step: LaunchStep)
    requires Reachable(c, s) && LaunchEnabled(c, s, step)
    ensures Reachable(c, AfterLaunch(c, s, step))
  {
    var steps :| Reaches(c, steps, s);
    Extend(c, steps, s, Launch(step));
  }

  lemma ThenWork(c: Config, s: State, step: WorkStep)
    requires Reachable(c, s) && WorkEnabled(c, s, step, 0)
    ensures Reachable(c, AfterWork(c, s, step, 0))
  {
    var steps :| Reaches(c, steps, s);
    Extend(c, steps, s, Work(step, 0));
  }

  lemma ThenTrain(c: Config, s: State, step: TrainStep)
    requires Reachable(c, s) && TrainEnabled(c, s, step)
    ensures Reachable(c, AfterTrain(c, s, step))
  {
    var steps :| Reaches(c, steps, s);
    Extend(c, steps, s, Train(step));
  }

  lemma ThenOperate(c: Config, s: State, step: GateStep)
    requires Reachable(c, s) && OperateEnabled(s, step)
    ensures Reachable(c, AfterOperate(s, step))
  {
    var steps :| Reaches(c, steps, s);
    Extend(c, steps, s, Operate(step));
  }

  /** One prompt per step and one step of staleness. */
  function Small(split: bool): Config
  {
    Config(1, 1, 0, split)
  }

  // ---------------------------------------------------------------- a gate that is checked before the start

  /** A state in which nothing was pushed and the trainer still waits for its first batch. */
  function Waiting(l: Launcher, pool: Pool, paused: bool, drained: bool, books: Books): State
  {
    State(TrainerPart(0, Sampling, []), Gate(0, true, paused, drained, true), l, pool, [], -1, books, false)
  }

  function NoBooks(): Books
  {
    Books({}, [], 0, false)
  }

  function OneBook(): Books
  {
    Books({0}, [0], 0, false)
  }

  lemma FirstReservation(split: bool)
    ensures Reachable(Small(split), Waiting(AtPrompt(0, 0, 0), Pool(1, []), false, false, OneBook()))
  {
    var c := Small(split);
    FromStart(c);
    var s0 := Waiting(Idle, Pool(1, []), false, false, NoBooks());
    assert Initial(c) == s0;
    ThenLaunch(c, s0, ReadVersion);
    var s1 := Waiting(Versioned(0), Pool(1, []), false, false, NoBooks());
    ThenLaunch(c, s1, ReadLast);
    var s2 := Waiting(Read(0, -1), Pool(1, []), false, false, NoBooks());
    assert NextTarget(c, 0, -1, {}) == Some(0);
    ThenLaunch(c, s2, Reserve);
    assert {} + {0} == {0} && [] + [0] == [0];
  }

  lemma HoldingAPermit(split: bool)
    ensures Reachable(Small(split), Waiting(Holding(0, 0, 0), Pool(0, []), false, false, OneBook()))
  {
    var c := Small(split);
    FirstReservation(split);
    ThenLaunch(c, Waiting(AtPrompt(0, 0, 0), Pool(1, []), false, false, OneBook()), SkipRefit);
    ThenLaunch(c, Waiting(Acquiring(0, 0, 0), Pool(1, []), false, false, OneBook()), Acquire);
  }

  lemma DrainedPastGate()
    ensures Reachable(Small(true), Waiting(PastGate(0, 0, 0), Pool(0, []), true, true, OneBook()))
  {
    var c, free := Small(true), Pool(0, []);
    HoldingAPermit(true);
    ThenLaunch(c, Waiting(Holding(0, 0, 0), free, false, false, OneBook()), CheckGate);
    ThenOperate(c, Waiting(PastGate(0, 0, 0), free, false, false, OneBook()), Pause);
    ThenOperate(c, Waiting(PastGate(0, 0, 0), free, true, false, OneBook()), Drain);
  }

  /** With the check and the start apart, a rollout runs after the drain has returned and before
      collection was resumed. */
  lemma SplitGateStartsAfterDrain()
    ensures exists s :: Reachable(Small(true), s) && s.gate.drained && s.gate.paused && InFlight(s.pool) == [0]
  {
    DrainedPastGate();
    ThenLaunch(Small(true), Waiting(PastGate(0, 0, 0), Pool(0, []), true, true, OneBook()), StartPastGate);
    var end := Waiting(Idle, Crew(Phase.Rolling), true, true, OneBook());
    assert [] + [First(Phase.Rolling)] == [First(Phase.Rolling)];
    assert Reachable(Small(true), end);
    OneRolling();
  }

  // ---------------------------------------------------------------- a target that is generated twice

  function Group(): Record<nat>
  {
    Record(0, 0, 0)
  }

  function First(phase: Phase): Worker
  {
    Worker(Group(), phase)
  }

  function Crew(phase: Phase): Pool
  {
    Pool(0, [First(phase)])
  }

  lemma OneRolling()
    ensures InFlight(Crew(Phase.Rolling)) == [0]
  {
    var ws := Crew(Phase.Rolling).workers;
    assert ws[..0] == [] && AsyncStaleness.Rolling([]) == [];
  }

  /** A worker is rolling and the launcher has read the last target, before the worker pushes. */
  lemma StaleRead()
    ensures Reachable(Small(false), Waiting(Read(0, -1), Crew(Phase.Rolling), false, false, OneBook()))
  {
    var c := Small(false);
    HoldingAPermit(false);
    ThenLaunch(c, Waiting(Holding(0, 0, 0), Pool(0, []), false, false, OneBook()), StartWorker);
    assert [] + [First(Phase.Rolling)] == [First(Phase.Rolling)];
    ThenLaunch(c, Waiting(Idle, Crew(Phase.Rolling), false, false, OneBook()), ReadVersion);
    ThenLaunch(c, Waiting(Versioned(0), Crew(Phase.Rolling), false, false, OneBook()), ReadLast);
  }

  /** A state after the first group was pushed. */
  function Pushed1(t: TrainerPart, cleared: bool, l: Launcher, pool: Pool, buffer: seq<Record<nat>>,
      books: Books): State
  {
    State(t, Gate(0, cleared, false, false, true), l, pool, buffer, 0, books, false)
  }

  function Fresh0(): TrainerPart
  {
    TrainerPart(0, Sampling, [])
  }

  lemma PushedAndReleased()
    ensures Reachable(Small(false), Pushed1(Fresh0(), true, Read(0, -1), Crew(Leaving), [Group()],
              Books({}, [0], 0, false)))
  {
    var c := Small(false);
    StaleRead();
    var s := Waiting(Read(0, -1), Crew(Phase.Rolling), false, false, OneBook());
    ThenWork(c, s, Push);
    assert [] + [Group()] == [Group()];
    assert [First(Phase.Rolling)][0 := First(Phase.Pushed)] == [First(Phase.Pushed)];
    var pushed := Pushed1(Fresh0(), true, Read(0, -1), Crew(Phase.Pushed), [Group()], OneBook());
    assert AfterWork(c, s, Push, 0) == pushed;
    ThenWork(c, pushed, Release);
    assert [First(Phase.Pushed)][0 := First(Leaving)] == [First(Leaving)];
    assert {0} - {0} == {};
  }

  function Twice(reserved: set<int>): Books
  {
    Books(reserved, [0, 0], 0, true)
  }

  /** Target 0 is already buffered, and is reserved again. */
  lemma ReservedTwice()
    ensures Reachable(Small(false), Pushed1(Fresh0(), true, AtPrompt(0, 0, 0), Crew(Leaving), [Group()], Twice({0})))
  {
    PushedAndReleased();
    assert NextTarget(Small(false), 0, -1, {}) == Some(0);
    ThenLaunch(Small(false), Pushed1(Fresh0(), true, Read(0, -1), Crew(Leaving), [Group()], Books({}, [0], 0, false)),
      Reserve);
    assert {} + {0} == {0} && [0] + [0] == [0, 0];
  }

  lemma FirstWorkerGone()
    ensures Reachable(Small(false), Pushed1(Fresh0(), true, AtPrompt(0, 0, 0), Pool(1, []), [Group()], Twice({})))
  {
    var c := Small(false);
    ReservedTwice();
    ThenWork(c, Pushed1(Fresh0(), true, AtPrompt(0, 0, 0), Crew(Leaving), [Group()], Twice({0})), Cleanup);
    assert [First(Leaving)][0 := First(Cleaned)] == [First(Cleaned)];
    assert {0} - {0} == {};
    ThenWork(c, Pushed1(Fresh0(), true, AtPrompt(0, 0, 0), Crew(Cleaned), [Group()], Twice({})), Detach);
    assert [First(Cleaned)][0 := First(Detached)] == [First(Detached)];
    ThenWork(c, Pushed1(Fresh0(), true, AtPrompt(0, 0, 0), Crew(Detached), [Group()], Twice({})), ReturnPermit);
    assert Pop([First(Detached)], 0) == [];
  }

  lemma SecondRollout()
    ensures Reachable(Small(false), Pushed1(Fresh0(), true, Idle, Crew(Phase.Rolling), [Group()], Twice({})))
  {
    var c := Small(false);
    FirstWorkerGone();
    ThenLaunch(c, Pushed1(Fresh0(), true, AtPrompt(0, 0, 0), Pool(1, []), [Group()], Twice({})), SkipRefit);
    ThenLaunch(c, Pushed1(Fresh0(), true, Acquiring(0, 0, 0), Pool(1, []), [Group()], Twice({})), Acquire);
    ThenLaunch(c, Pushed1(Fresh0(), true, Holding(0, 0, 0), Pool(0, []), [Group()], Twice({})), StartWorker);
    assert [] + [First(Phase.Rolling)] == [First(Phase.Rolling)];
  }

  lemma FirstGroupSampled()
    ensures TrainEnabled(Small(false), Pushed1(Fresh0(), true, Idle, Crew(Phase.Rolling), [Group()], Twice({})), Sample)
    ensures Kept([Group()], 0, 1) == []
  {
    assert [Group()][1..] == [] && Matching<nat>([], 0) == [];
    assert Matching([Group()], 0) == [Group()];
  }

  /** With the read and the reservation apart, no failed worker is needed to break the staleness
      bound: the trainer is at version 1 while a rollout for target 0 is still running. */
  lemma StaleReadBreaksBound()
    ensures exists s :: Reachable(Small(false), s) && !s.failed && s.books.rereserved
                        && s.trainer.w == 1 && InFlight(s.pool) == [0]
  {
    var c := Small(false);
    SecondRollout();
    FirstGroupSampled();
    ThenTrain(c, Pushed1(Fresh0(), true, Idle, Crew(Phase.Rolling), [Group()], Twice({})), Sample);
    ThenTrain(c, Pushed1(TrainerPart(0, Training, []), true, Idle, Crew(Phase.Rolling), [], Twice({})), BeginRefit);
    ThenTrain(c, Pushed1(TrainerPart(0, Refitting, []), false, Idle, Crew(Phase.Rolling), [], Twice({})), FinishRefit);
    var mail := [] + [SetVersion(1), ResumeAfterRefit];
    var end := Pushed1(TrainerPart(1, Sampling, mail), false, Idle, Crew(Phase.Rolling), [], Twice({}));
    assert Reachable(c, end);
    OneRolling();
  }
}
