/** Safety of the asynchronous protocol over whole runs: bounded staleness, at most one batch per
    target, a buffer that never fills, and a sampling error that is unreachable.

    The statements are about runs in which no worker has failed and no target that had already been
    pushed was reserved again; `ReservationIsFreshExactlyWhen` says when the latter happens, and
    module AsyncCounterexample shows that it can.
 */
module AsyncStaleness {
  import opened Wrappers

  import opened ReplayBuffers
  import opened AsyncProtocol

  // ---------------------------------------------------------------- counting targets

  function Count(ts: seq<int>, t: int): nat
  {
    if ts == [] then 0 else (if ts[|ts| - 1] == t then 1 else 0) + Count(ts[..|ts| - 1], t)
  }

  function Targets(rs: seq<Record<nat>>): seq<int>
  {
    seq(|rs|, i requires 0 <= i < |rs| => rs[i].target)
  }

  function Rolling(ws: seq<Worker>): seq<int>
  {
    if ws == [] then []
    else
      var x := ws[|ws| - 1];
      Rolling(ws[..|ws| - 1]) + (if x.phase.Rolling? then [x.group.target] else [])
  }

  lemma CountOne(ts: seq<int>, x: int, t: int)
    ensures Count(ts + [x], t) == Count(ts, t) + (if x == t then 1 else 0)
  {
    assert (ts + [x])[..|ts|] == ts;
  }

  lemma {:induction false} CountConcat(a: seq<int>, b: seq<int>, t: int)
    ensures Count(a + b, t) == Count(a, t) + Count(b, t)
  {
    if b == [] {
      assert a + b == a;
    } else {
      CountConcat(a, b[..|b| - 1], t);
      assert (a + b)[..|a + b| - 1] == a + b[..|b| - 1];
    }
  }

  lemma {:induction false} CountMember(ts: seq<int>, i: nat)
    requires i < |ts|
    ensures Count(ts, ts[i]) > 0
  {
    if i < |ts| - 1 {
      CountMember(ts[..|ts| - 1], i);
    }
  }

  lemma RollingLast(ws: seq<Worker>, t: int)
    requires ws != []
    ensures var x := ws[|ws| - 1];
            var before := Count(Rolling(ws[..|ws| - 1]), t);
            Count(Rolling(ws), t) == before + (if x.phase.Rolling? && x.group.target == t then 1 else 0)
  {
    var rest := Rolling(ws[..|ws| - 1]);
    CountOne(rest, ws[|ws| - 1].group.target, t);
    assert rest + [] == rest;
  }

  /** Worker i leaves the rolling phase. */
  lemma {:induction false} RollingAfterMove(ws: seq<Worker>, i: nat, phase: Phase, t: int)
    requires i < |ws| && !phase.Rolling?
    ensures var moved := ws[i := ws[i].(phase := phase)];
            var leaves := if ws[i].phase.Rolling? && ws[i].group.target == t then 1 else 0;
            Count(Rolling(moved), t) == Count(Rolling(ws), t) - leaves
    decreases |ws|
  {
    var moved := ws[i := ws[i].(phase := phase)];
    RollingLast(ws, t);
    RollingLast(moved, t);
    if i == |ws| - 1 {
      assert moved[..|ws| - 1] == ws[..|ws| - 1];
    } else {
      RollingAfterMove(ws[..|ws| - 1], i, phase, t);
      assert moved[..|ws| - 1] == ws[..|ws| - 1][i := ws[i].(phase := phase)];
    }
  }

  lemma {:induction false} RollingAfterPop(ws: seq<Worker>, i: nat)
    requires i < |ws| && !ws[i].phase.Rolling?
    ensures Rolling(Pop(ws, i)) == Rolling(ws)
    decreases |ws|
  {
    if i == |ws| - 1 {
      assert Pop(ws, i) == ws[..|ws| - 1];
    } else {
      RollingAfterPop(ws[..|ws| - 1], i);
      assert Pop(ws, i)[..|ws| - 2] == Pop(ws[..|ws| - 1], i);
    }
  }

  lemma CountFirst(rs: seq<Record<nat>>, t: int)
    requires rs != []
    ensures Count(Targets(rs), t) == (if rs[0].target == t then 1 else 0) + Count(Targets(rs[1..]), t)
  {
    assert Targets(rs) == [rs[0].target] + Targets(rs[1..]);
    CountConcat([rs[0].target], Targets(rs[1..]), t);
    CountOne([], rs[0].target, t);
    assert [] + [rs[0].target] == [rs[0].target];
  }

  lemma {:induction false} CountKept(rs: seq<Record<nat>>, w: int, n: nat, t: int)
    requires n <= |Matching(rs, w)|
    ensures Count(Targets(Kept(rs, w, n)), t) == Count(Targets(rs), t) - (if t == w then n else 0)
  {
    if rs != [] {
      var rest, kept := rs[1..], Kept(rs, w, n);
      CountFirst(rs, t);
      if n > 0 && Matches(rs[0], w) {
        CountKept(rest, w, n - 1, t);
      } else {
        CountKept(rest, w, n, t);
        assert kept[1..] == Kept(rest, w, n);
        CountFirst(kept, t);
      }
    }
  }

  lemma {:induction false} KeptInside(rs: seq<Record<nat>>, w: int, n: nat)
    ensures forall i :: 0 <= i < |Kept(rs, w, n)| ==> Kept(rs, w, n)[i] in rs
  {
    if rs != [] {
      KeptInside(rs[1..], w, n);
      if n > 0 {
        KeptInside(rs[1..], w, n - 1);
      }
    }
  }

  function Dropping(ts: seq<int>, t: int): (r: seq<int>)
    ensures |r| == |ts| - Count(ts, t)
    ensures forall i :: 0 <= i < |r| ==> r[i] in ts && r[i] != t
  {
    if ts == [] then []
    else
      var x := ts[|ts| - 1];
      Dropping(ts[..|ts| - 1], t) + (if x == t then [] else [x])
  }

  lemma {:induction false} CountDropping(ts: seq<int>, t: int, u: int)
    ensures Count(Dropping(ts, t), u) <= Count(ts, u)
  {
    if ts != [] {
      var x := ts[|ts| - 1];
      CountDropping(ts[..|ts| - 1], t, u);
      if x != t {
        CountOne(Dropping(ts[..|ts| - 1], t), x, u);
      } else {
        assert Dropping(ts[..|ts| - 1], t) + [] == Dropping(ts[..|ts| - 1], t);
      }
    }
  }

  /** At most n entries for each of k targets: at most n * k entries. */
  lemma {:induction false} Pigeonhole(ts: seq<int>, lo: int, k: nat, n: nat)
    requires forall i :: 0 <= i < |ts| ==> lo <= ts[i] < lo + k
    requires forall t :: Count(ts, t) <= n
    ensures |ts| <= n * k
    decreases k
  {
    if k == 0 {
      assert |ts| == 0;
    } else {
      var top := lo + k - 1;
      forall t
        ensures Count(Dropping(ts, top), t) <= n
      {
        CountDropping(ts, top, t);
      }
      Pigeonhole(Dropping(ts, top), lo, k - 1, n);
      assert n * k == n * (k - 1) + n;
    }
  }

  // ---------------------------------------------------------------- the invariant

  predicate InBatch(l: Launcher)
  {
    l.AtPrompt? || l.AwaitingRefit? || l.RefitSeen? || l.Acquiring? || l.Holding? || l.PastGate?
  }

  /** Prompts of target t reserved but not yet given to a worker. */
  function Unlaunched(c: Config, l: Launcher, t: int): int
  {
    if InBatch(l) && l.target == t then c.n - l.k else 0
  }

  /** Groups of target t that exist or are still to be made. */
  function Outstanding(c: Config, s: State, t: int): int
  {
    Count(Targets(s.buffer), t) + Count(Rolling(s.pool.workers), t) + Unlaunched(c, s.launcher, t)
  }

  /** Versions the trainer has finished with lie below this. */
  function Floor(s: State): int
  {
    if s.trainer.phase.Sampling? then s.trainer.w else s.trainer.w + 1
  }

  ghost predicate Clocks(c: Config, s: State)
  {
    var t, v := s.trainer, s.gate.version;
    && c.start <= v <= t.w
    && (t.mail == [] || t.mail == [SetVersion(t.w), ResumeAfterRefit] || t.mail == [ResumeAfterRefit])
    && (t.phase.Refitting? ==> t.mail == [])
    && Floor(s) - 1 <= (if Floor(s) == c.start then Floor(s) - 1 else s.last)
  }

  ghost predicate Bookkeeping(c: Config, s: State)
  {
    var b := s.books;
    && (s.gate.running ==> forall x :: x in b.history ==> x in b.reserved || x <= s.last)
    && (forall x :: x in b.reserved ==> x in b.history)
    && (s.last == -1 || s.last in b.history)
    && (forall i, j :: 0 <= i < j < |b.history| ==> b.history[i] < b.history[j])
    && c.start <= b.lastG <= s.gate.version
    && (forall x :: x in b.history ==> x >= c.start)
    && (forall x :: Lowest(c, b.lastG) <= x && b.history != [] && x <= b.history[|b.history| - 1] ==> x in b.history)
  }

  ghost predicate LauncherFine(c: Config, s: State)
  {
    var l := s.launcher;
    && (l.Stopped? <==> !s.gate.running)
    && (l.Versioned? || l.Read? ==> c.start <= s.books.lastG <= l.g <= s.gate.version)
    && (l.Read? ==> l.last <= s.last)
    && (InBatch(l) ==> c.start <= l.g <= s.gate.version && l.g <= l.target <= l.g + c.maxAge
                       && l.target in s.books.history && l.k < c.n && l.target >= Floor(s))
  }

  /** A group's target is still ahead and at most maxAge above the version that generated it. */
  ghost predicate Fresh(c: Config, s: State, r: Record<nat>)
  {
    && r.target >= Floor(s)
    && 0 <= r.target - r.version <= c.maxAge
    && c.start <= r.version <= s.gate.version
    && r.target in s.books.history
  }

  ghost predicate GroupsFine(c: Config, s: State)
  {
    && (forall i :: 0 <= i < |s.buffer| ==> Fresh(c, s, s.buffer[i]) && s.buffer[i].target <= s.last)
    && (forall i :: 0 <= i < |s.pool.workers| && s.pool.workers[i].phase.Rolling? ==>
         Fresh(c, s, s.pool.workers[i].group))
    && (s.gate.running ==> forall i :: 0 <= i < |s.pool.workers| && !s.pool.workers[i].phase.Rolling? ==>
          s.pool.workers[i].group.target <= s.last)
  }

  ghost predicate OneBatchPerTarget(c: Config, s: State)
  {
    forall t :: Outstanding(c, s, t) <= (if t in s.books.history then c.n else 0)
  }

  ghost predicate Inv(c: Config, s: State)
  {
    Clocks(c, s) && Bookkeeping(c, s) && LauncherFine(c, s) && GroupsFine(c, s) && OneBatchPerTarget(c, s)
  }

  ghost predicate Sound(s: State)
  {
    !s.failed && !s.books.rereserved
  }

  // ---------------------------------------------------------------- preservation, step by step

  lemma InitialInv(c: Config)
    requires Legal(c)
    ensures Inv(c, Initial(c))
  {
  }

  lemma ReserveKeeps(c: Config, s: State)
    requires Legal(c) && Inv(c, s) && s.launcher.Read? && Sound(Reserved(c, s))
    ensures Inv(c, Reserved(c, s))
  {
    var l := s.launcher;
    if NextTarget(c, l.g, l.last, s.books.reserved).Some? {
      assert Clocks(c, Reserved(c, s));
      ExtendHistory(c, s);
      OpenBatch(c, s);
    } else {
      var next := Reserved(c, s);
      assert next == s.(launcher := Idle);
      assert forall t :: Outstanding(c, next, t) <= Outstanding(c, s, t);
      SameCounts(c, s, next);
    }
  }

  lemma OpenBatch(c: Config, s: State)
    requires Legal(c) && Inv(c, s) && s.launcher.Read? && Sound(Reserved(c, s))
    requires NextTarget(c, s.launcher.g, s.launcher.last, s.books.reserved).Some?
    ensures OneBatchPerTarget(c, Reserved(c, s)) && GroupsFine(c, Reserved(c, s)) && LauncherFine(c, Reserved(c, s))
  {
    NewTargetIsNew(c, s);
    var next := Reserved(c, s);
    forall t
      ensures Outstanding(c, next, t) <= (if t in next.books.history then c.n else 0)
    {
      assert Outstanding(c, s, t) <= (if t in s.books.history then c.n else 0);
    }
  }

  /** A reservation above the last pushed target is for a target never reserved before, and above
      all of them. */
  lemma NewTargetIsNew(c: Config, s: State)
    requires Legal(c) && Inv(c, s) && s.launcher.Read?
    requires NextTarget(c, s.launcher.g, s.launcher.last, s.books.reserved).Some?
    ensures var t := NextTarget(c, s.launcher.g, s.launcher.last, s.books.reserved).value;
            && (t > s.last <==> t !in s.books.history)
            && (t > s.last ==> forall x :: x in s.books.history ==> x < t)
  {
    var h := s.books.history;
    var t := NextTarget(c, s.launcher.g, s.launcher.last, s.books.reserved).value;
    assert t >= Lowest(c, s.launcher.g) >= Lowest(c, s.books.lastG);
    if h != [] {
      var top := h[|h| - 1];
      assert forall x :: x in h ==> x <= top;
      assert t <= top ==> t in h;
    }
  }

  lemma AppendTarget(h: seq<int>, t: int, lo: int)
    requires forall i, j :: 0 <= i < j < |h| ==> h[i] < h[j]
    requires forall x :: x in h ==> x < t
    requires forall x :: lo <= x < t ==> x in h
    ensures var longer := h + [t];
            && (forall i, j :: 0 <= i < j < |longer| ==> longer[i] < longer[j])
            && (forall x :: lo <= x <= longer[|longer| - 1] ==> x in longer)
  {
    forall i | 0 <= i < |h|
      ensures h[i] < t
    {
      assert h[i] in h;
    }
  }

  /** Below the target now chosen, everything the launcher may serve was reserved before. */
  lemma EarlierOnesReserved(c: Config, s: State, x: int)
    requires Legal(c) && Inv(c, s) && s.launcher.Read?
    requires var t := NextTarget(c, s.launcher.g, s.launcher.last, s.books.reserved);
             t.Some? && Lowest(c, s.launcher.g) <= x < t.value
    ensures x in s.books.history
  {
    if x !in s.books.reserved {
      assert x <= s.last && s.last in s.books.history;
      assert Lowest(c, s.books.lastG) <= x;
    }
  }

  lemma ExtendHistory(c: Config, s: State)
    requires Legal(c) && Inv(c, s) && s.launcher.Read? && Sound(Reserved(c, s))
    requires NextTarget(c, s.launcher.g, s.launcher.last, s.books.reserved).Some?
    ensures Bookkeeping(c, Reserved(c, s))
  {
    var g, b := s.launcher.g, s.books;
    var t := NextTarget(c, g, s.launcher.last, b.reserved).value;
    NewTargetIsNew(c, s);
    forall x | Lowest(c, g) <= x < t
      ensures x in b.history
    {
      EarlierOnesReserved(c, s, x);
    }
    AppendTarget(b.history, t, Lowest(c, g));
    assert Reserved(c, s).books == Books(b.reserved + {t}, b.history + [t], g, false);
  }

  /** The parts of the invariant that do not count groups. */
  ghost predicate Shape(c: Config, s: State)
  {
    Clocks(c, s) && Bookkeeping(c, s) && LauncherFine(c, s) && GroupsFine(c, s)
  }

  lemma SameCounts(c: Config, s: State, next: State)
    requires OneBatchPerTarget(c, s) && next.books.history == s.books.history
    requires forall t :: Outstanding(c, next, t) <= Outstanding(c, s, t)
    ensures OneBatchPerTarget(c, next)
  {
    forall t
      ensures Outstanding(c, next, t) <= (if t in next.books.history then c.n else 0)
    {
      assert Outstanding(c, s, t) <= (if t in s.books.history then c.n else 0);
    }
  }

  lemma StartShape(c: Config, s: State)
    requires Legal(c) && Shape(c, s) && (s.launcher.Holding? || s.launcher.PastGate?)
    ensures Shape(c, Started(c, s))
  {
  }

  lemma StartCounts(c: Config, s: State, t: int)
    requires InBatch(s.launcher) && (s.launcher.Holding? || s.launcher.PastGate?) && s.launcher.k < c.n
    ensures Outstanding(c, Started(c, s), t) == Outstanding(c, s, t)
  {
    var ws, more := s.pool.workers, Started(c, s).pool.workers;
    assert more[..|ws|] == ws;
    CountOne(Rolling(ws), s.launcher.target, t);
  }

  lemma StartKeeps(c: Config, s: State)
    requires Legal(c) && Inv(c, s) && (s.launcher.Holding? || s.launcher.PastGate?)
    ensures Inv(c, Started(c, s))
  {
    StartShape(c, s);
    forall t
      ensures Outstanding(c, Started(c, s), t) <= Outstanding(c, s, t)
    {
      StartCounts(c, s, t);
    }
    SameCounts(c, s, Started(c, s));
  }

  lemma LaunchShape(c: Config, s: State, step: LaunchStep)
    requires Legal(c) && Shape(c, s) && LaunchEnabled(c, s, step)
    requires step != Reserve && step != StartWorker && step != StartPastGate
    ensures Shape(c, AfterLaunch(c, s, step))
  {
    LaunchRest(c, s, step);
    LaunchPosition(c, s, step);
  }

  lemma LaunchRest(c: Config, s: State, step: LaunchStep)
    requires Legal(c) && Shape(c, s) && LaunchEnabled(c, s, step)
    requires step != Reserve && step != StartWorker && step != StartPastGate
    ensures var next := AfterLaunch(c, s, step); Clocks(c, next) && Bookkeeping(c, next) && GroupsFine(c, next)
  {
    var next := AfterLaunch(c, s, step);
    assert next.trainer == s.trainer && next.buffer == s.buffer && next.last == s.last && next.books == s.books;
    assert next.pool.workers == s.pool.workers && next.gate.version == s.gate.version;
    assert next.gate.running ==> s.gate.running;
  }

  lemma LaunchPosition(c: Config, s: State, step: LaunchStep)
    requires Legal(c) && Shape(c, s) && LaunchEnabled(c, s, step)
    requires step != Reserve && step != StartWorker && step != StartPastGate
    ensures LauncherFine(c, AfterLaunch(c, s, step))
  {
  }

  lemma LaunchCounts(c: Config, s: State, step: LaunchStep, t: int)
    requires LaunchEnabled(c, s, step) && step != Reserve && step != StartWorker && step != StartPastGate
    requires InBatch(s.launcher) ==> s.launcher.k < c.n
    ensures AfterLaunch(c, s, step).books == s.books
    ensures Outstanding(c, AfterLaunch(c, s, step), t) <= Outstanding(c, s, t)
  {
  }

  lemma LaunchKeeps(c: Config, s: State, step: LaunchStep)
    requires Legal(c) && Inv(c, s) && LaunchEnabled(c, s, step) && Sound(AfterLaunch(c, s, step))
    ensures Inv(c, AfterLaunch(c, s, step))
  {
    if step == Reserve {
      ReserveKeeps(c, s);
    } else if step == StartWorker || step == StartPastGate {
      StartKeeps(c, s);
    } else {
      LaunchShape(c, s, step);
      forall t
        ensures Outstanding(c, AfterLaunch(c, s, step), t) <= Outstanding(c, s, t)
      {
        LaunchCounts(c, s, step, t);
      }
      LaunchCounts(c, s, step, 0);
      SameCounts(c, s, AfterLaunch(c, s, step));
    }
  }

  lemma WorkShape(c: Config, s: State, step: WorkStep, i: nat)
    requires Legal(c) && Shape(c, s) && WorkEnabled(c, s, step, i) && !step.Fail?
    ensures Shape(c, AfterWork(c, s, step, i))
  {
    WorkBooks(c, s, step, i);
    if step.ReturnPermit? {
      var ws, left := s.pool.workers, Pop(s.pool.workers, i);
      assert forall j :: 0 <= j < |left| ==> left[j] == if j < i then ws[j] else ws[j + 1];
    } else {
      MovedGroups(c, s, step, i);
    }
  }

  lemma WorkBooks(c: Config, s: State, step: WorkStep, i: nat)
    requires Legal(c) && Shape(c, s) && WorkEnabled(c, s, step, i) && !step.Fail?
    ensures var next := AfterWork(c, s, step, i); Clocks(c, next) && Bookkeeping(c, next) && LauncherFine(c, next)
  {
    var next := AfterWork(c, s, step, i);
    assert next.trainer == s.trainer && next.launcher == s.launcher && next.gate == s.gate && next.last >= s.last;
    assert next.books.history == s.books.history && next.books.lastG == s.books.lastG;
  }

  lemma MovedGroups(c: Config, s: State, step: WorkStep, i: nat)
    requires Legal(c) && Shape(c, s) && WorkEnabled(c, s, step, i) && !step.Fail? && !step.ReturnPermit?
    ensures GroupsFine(c, AfterWork(c, s, step, i))
  {
    var next := AfterWork(c, s, step, i);
    assert next.trainer == s.trainer && next.gate == s.gate && next.books.history == s.books.history &&
        next.last >= s.last;
    assert forall j :: 0 <= j < |s.pool.workers| && j != i ==> next.pool.workers[j] == s.pool.workers[j];
  }

  lemma WorkCounts(c: Config, s: State, step: WorkStep, i: nat, t: int)
    requires WorkEnabled(c, s, step, i)
    ensures AfterWork(c, s, step, i).books.history == s.books.history
    ensures Outstanding(c, AfterWork(c, s, step, i), t) <= Outstanding(c, s, t)
  {
    if step.ReturnPermit? {
      RollingAfterPop(s.pool.workers, i);
    } else {
      RollingAfterMove(s.pool.workers, i, AfterWork(c, s, step, i).pool.workers[i].phase, t);
      if step.Push? {
        var r := s.pool.workers[i].group;
        assert Targets(s.buffer + [r]) == Targets(s.buffer) + [r.target];
        CountOne(Targets(s.buffer), r.target, t);
      }
    }
  }

  lemma WorkKeeps(c: Config, s: State, step: WorkStep, i: nat)
    requires Legal(c) && Inv(c, s) && WorkEnabled(c, s, step, i) && Sound(AfterWork(c, s, step, i))
    ensures Inv(c, AfterWork(c, s, step, i))
  {
    WorkShape(c, s, step, i);
    forall t
      ensures Outstanding(c, AfterWork(c, s, step, i), t) <= Outstanding(c, s, t)
    {
      WorkCounts(c, s, step, i, t);
    }
    WorkCounts(c, s, step, i, 0);
    SameCounts(c, s, AfterWork(c, s, step, i));
  }

  lemma TrainKeeps(c: Config, s: State, step: TrainStep)
    requires Legal(c) && Inv(c, s) && TrainEnabled(c, s, step)
    ensures Inv(c, AfterTrain(c, s, step))
  {
    if step == Sample {
      SampleKeeps(c, s);
    } else {
      TrainShape(c, s, step);
      assert forall t :: Outstanding(c, AfterTrain(c, s, step), t) == Outstanding(c, s, t);
      SameCounts(c, s, AfterTrain(c, s, step));
    }
  }

  lemma TrainShape(c: Config, s: State, step: TrainStep)
    requires Legal(c) && Shape(c, s) && TrainEnabled(c, s, step) && step != Sample
    ensures Shape(c, AfterTrain(c, s, step))
  {
    var next := AfterTrain(c, s, step);
    assert Floor(next) == Floor(s) && next.gate.version >= s.gate.version && next.gate.running == s.gate.running;
  }

  lemma SampleCounts(c: Config, s: State, t: int)
    requires TrainEnabled(c, s, Sample)
    ensures Outstanding(c, AfterTrain(c, s, Sample), t) == Outstanding(c, s, t) - (if t == s.trainer.w then c.n else 0)
  {
    CountKept(s.buffer, s.trainer.w, c.n, t);
  }

  /** Consuming a full batch leaves no group for this version anywhere: the trainer may move on. */
  lemma SampleKeeps(c: Config, s: State)
    requires Legal(c) && Inv(c, s) && TrainEnabled(c, s, Sample)
    ensures Inv(c, AfterTrain(c, s, Sample))
  {
    var w, next := s.trainer.w, AfterTrain(c, s, Sample);
    forall t
      ensures Outstanding(c, next, t) <= Outstanding(c, s, t)
    {
      SampleCounts(c, s, t);
    }
    SameCounts(c, s, next);
    SampleCounts(c, s, w);
    assert Outstanding(c, s, w) <= c.n;
    NoneLeft(c, next, w);
    SampleShape(c, s);
  }

  lemma SampleShape(c: Config, s: State)
    requires Legal(c) && Shape(c, s) && TrainEnabled(c, s, Sample)
    requires var next := AfterTrain(c, s, Sample);
             && (forall i :: 0 <= i < |next.buffer| ==> next.buffer[i].target != s.trainer.w)
             && (forall i :: 0 <= i < |next.pool.workers| && next.pool.workers[i].phase.Rolling? ==>
                  next.pool.workers[i].group.target != s.trainer.w)
             && (InBatch(next.launcher) ==> next.launcher.target != s.trainer.w)
    ensures Shape(c, AfterTrain(c, s, Sample))
  {
    var next := AfterTrain(c, s, Sample);
    KeptInside(s.buffer, s.trainer.w, c.n);
    SomeMatch(s.buffer, s.trainer.w);
    LastCovers(c, s, s.trainer.w);
    forall i | 0 <= i < |next.buffer|
      ensures Fresh(c, next, next.buffer[i])
    {
      assert next.buffer[i] in s.buffer;
    }
  }

  /** A buffered target is at most the last pushed one. */
  lemma LastCovers(c: Config, s: State, w: int)
    requires Shape(c, s) && exists i :: 0 <= i < |s.buffer| && s.buffer[i].target == w
    ensures s.last >= w
  {
  }

  lemma {:induction false} SomeMatch(rs: seq<Record<nat>>, w: int)
    requires Matching(rs, w) != []
    ensures exists i :: 0 <= i < |rs| && rs[i].target == w
  {
    if !Matches(rs[0], w) {
      SomeMatch(rs[1..], w);
      var i :| 0 <= i < |rs[1..]| && rs[1..][i].target == w;
      assert rs[i + 1].target == w;
    }
  }

  lemma {:induction false} RollingMember(ws: seq<Worker>, i: nat)
    requires i < |ws| && ws[i].phase.Rolling?
    ensures Count(Rolling(ws), ws[i].group.target) > 0
    decreases |ws|
  {
    var x, rest := ws[|ws| - 1], ws[..|ws| - 1];
    if i < |ws| - 1 {
      RollingMember(rest, i);
    }
    if x.phase.Rolling? {
      CountOne(Rolling(rest), x.group.target, ws[i].group.target);
    } else {
      assert Rolling(ws) == Rolling(rest);
    }
  }

  lemma NoneLeft(c: Config, s: State, w: int)
    requires Outstanding(c, s, w) <= 0 && (InBatch(s.launcher) ==> s.launcher.k < c.n)
    ensures forall i :: 0 <= i < |s.buffer| ==> s.buffer[i].target != w
    ensures forall i :: 0 <= i < |s.pool.workers| && s.pool.workers[i].phase.Rolling? ==>
              s.pool.workers[i].group.target != w
    ensures InBatch(s.launcher) ==> s.launcher.target != w
  {
    forall i | 0 <= i < |s.buffer|
      ensures s.buffer[i].target != w
    {
      CountMember(Targets(s.buffer), i);
    }
    forall i | 0 <= i < |s.pool.workers| && s.pool.workers[i].phase.Rolling?
      ensures s.pool.workers[i].group.target != w
    {
      RollingMember(s.pool.workers, i);
    }
  }

  lemma OperateKeeps(c: Config, s: State, step: GateStep)
    requires Inv(c, s)
    ensures Inv(c, AfterOperate(s, step))
  {
    var next := AfterOperate(s, step);
    OperateShape(c, s, step);
    assert forall t :: Outstanding(c, next, t) == Outstanding(c, s, t);
    SameCounts(c, s, next);
  }

  lemma OperateShape(c: Config, s: State, step: GateStep)
    requires Shape(c, s)
    ensures Shape(c, AfterOperate(s, step))
  {
    var next := AfterOperate(s, step);
    assert next == s.(gate := next.gate);
    assert next.gate.version == s.gate.version && next.gate.running == s.gate.running;
  }

  lemma StepKeeps(c: Config, s: State, step: Step)
    requires Legal(c) && Inv(c, s) && Enabled(c, s, step) && Sound(After(c, s, step))
    ensures Inv(c, After(c, s, step))
  {
    match step {
      case Launch(l) => LaunchKeeps(c, s, l);
      case Work(x, i) => WorkKeeps(c, s, x, i);
      case Train(t) => TrainKeeps(c, s, t);
      case Operate(o) => OperateKeeps(c, s, o);
    }
  }

  lemma SoundBefore(c: Config, s: State, step: Step)
    requires Enabled(c, s, step) && Sound(After(c, s, step))
    ensures Sound(s)
  {
  }

  lemma {:induction false} ReachableInv(c: Config, steps: seq<Step>, s: State)
    requires Legal(c) && Reaches(c, steps, s) && Sound(s)
    ensures Inv(c, s)
    decreases |steps|
  {
    if steps == [] {
      InitialInv(c);
    } else {
      var before := Run(c, Initial(c), steps[..|steps| - 1]).value;
      SoundBefore(c, before, steps[|steps| - 1]);
      ReachableInv(c, steps[..|steps| - 1], before);
      StepKeeps(c, before, steps[|steps| - 1]);
    }
  }

  // ---------------------------------------------------------------- main results

  /** Every buffered group, every rollout in flight and the batch being launched. */
  ghost predicate Bounded(c: Config, s: State)
  {
    && (forall i :: 0 <= i < |s.buffer| ==> AgeInBounds(c, s, s.buffer[i].target, s.buffer[i].version))
    && (forall i :: 0 <= i < |s.pool.workers| && s.pool.workers[i].phase.Rolling? ==>
          AgeInBounds(c, s, s.pool.workers[i].group.target, s.pool.workers[i].group.version))
    && (InBatch(s.launcher) ==> AgeInBounds(c, s, s.launcher.target, s.launcher.g))
  }

  ghost predicate AgeInBounds(c: Config, s: State, target: int, version: int)
  {
    s.trainer.w <= target && 0 <= target - version <= c.maxAge && version <= s.trainer.w
  }

  /** Bounded staleness in every reachable state, also for versions re-read after a refit in the
      middle of a batch; in particular `sample` never finds a trajectory that is too old. */
  lemma BoundedStaleness(c: Config, steps: seq<Step>, s: State)
    requires Legal(c) && Reaches(c, steps, s) && Sound(s)
    ensures Bounded(c, s)
    ensures !HasOld(s.buffer, MinValid(s.trainer.w, c.maxAge))
    ensures forall n: nat :: !Sampled(s.buffer, None, n, s.trainer.w, c.maxAge).TooOld?
  {
    ReachableInv(c, steps, s);
    InvBounds(c, s);
    forall i | 0 <= i < |s.buffer|
      ensures s.buffer[i].version >= MinValid(s.trainer.w, c.maxAge)
    {
      assert Fresh(c, s, s.buffer[i]);
    }
  }

  lemma InvBounds(c: Config, s: State)
    requires Inv(c, s)
    ensures Bounded(c, s)
  {
  }

  /** Each target is reserved at most once, and the reservations come in increasing order. */
  lemma ReservationsIncrease(c: Config, steps: seq<Step>, s: State)
    requires Legal(c) && Reaches(c, steps, s) && Sound(s)
    ensures forall i, j :: 0 <= i < j < |s.books.history| ==> s.books.history[i] < s.books.history[j]
    ensures forall t ::
              Count(Targets(s.buffer), t)
                + Count(Rolling(s.pool.workers), t) <= (if t in s.books.history then c.n else 0)
  {
    ReachableInv(c, steps, s);
    forall t
      ensures Count(Targets(s.buffer), t) + Count(Rolling(s.pool.workers), t)
           <= (if t in s.books.history then c.n else 0)
    {
      assert Outstanding(c, s, t) <= (if t in s.books.history then c.n else 0);
    }
  }

  /** Targets of everything buffered or in flight. */
  function Live(s: State): seq<int>
  {
    Targets(s.buffer) + Rolling(s.pool.workers)
  }

  lemma {:induction false} RollingWitness(ws: seq<Worker>, j: nat) returns (i: nat)
    requires j < |Rolling(ws)|
    ensures i < |ws| && ws[i].phase.Rolling? && ws[i].group.target == Rolling(ws)[j]
    decreases |ws|
  {
    var rest := ws[..|ws| - 1];
    if j < |Rolling(rest)| {
      i := RollingWitness(rest, j);
    } else {
      i := |ws| - 1;
    }
  }

  lemma {:induction false} RollingCount(ws: seq<Worker>, i: nat)
    requires i < |ws| && ws[i].phase.Rolling?
    ensures |Rolling(ws)| > 0
    decreases |ws|
  {
    if i < |ws| - 1 {
      RollingCount(ws[..|ws| - 1], i);
    }
  }

  lemma LiveTargets(c: Config, s: State, j: nat)
    requires Inv(c, s) && j < |Live(s)|
    ensures s.trainer.w <= Live(s)[j] < s.trainer.w + (c.maxAge + 1)
  {
    InvBounds(c, s);
    if j < |s.buffer| {
      assert AgeInBounds(c, s, s.buffer[j].target, s.buffer[j].version);
    } else {
      var i := RollingWitness(s.pool.workers, j - |s.buffer|);
      assert AgeInBounds(c, s, s.pool.workers[i].group.target, s.pool.workers[i].group.version);
    }
  }

  lemma LiveCount(c: Config, s: State, t: int)
    requires Inv(c, s)
    ensures Count(Live(s), t) <= c.n
  {
    CountConcat(Targets(s.buffer), Rolling(s.pool.workers), t);
    assert Outstanding(c, s, t) <= (if t in s.books.history then c.n else 0);
  }

  lemma TwoPerVersion(n: nat, age: nat)
    requires age > 0
    ensures n * (age + 1) <= n * age * 2
  {
    assert n * (age + 1) == n * age + n;
    assert n * (age - 1) >= 0;
  }

  /** Groups buffered or in flight: at most one batch for each of maxAge + 1 versions, within the
      chosen capacity. */
  lemma OccupancyBound(c: Config, s: State)
    requires Legal(c) && Inv(c, s)
    ensures |s.buffer| + |Rolling(s.pool.workers)| <= c.n * (c.maxAge + 1) <= Capacity(c)
  {
    forall j | 0 <= j < |Live(s)|
      ensures s.trainer.w <= Live(s)[j] < s.trainer.w + (c.maxAge + 1)
    {
      LiveTargets(c, s, j);
    }
    forall t
      ensures Count(Live(s), t) <= c.n
    {
      LiveCount(c, s, t);
    }
    Pigeonhole(Live(s), s.trainer.w, c.maxAge + 1, c.n);
    TwoPerVersion(c.n, c.maxAge);
  }

  /** The buffer never answers "full": whenever a rollout finishes there is room for its group. */
  lemma BufferNeverFull(c: Config, steps: seq<Step>, s: State, i: nat)
    requires Legal(c) && Reaches(c, steps, s) && Sound(s)
    requires i < |s.pool.workers| && s.pool.workers[i].phase.Rolling?
    ensures |s.buffer| < c.n * (c.maxAge + 1) <= Capacity(c)
    ensures s.gate.running ==> WorkEnabled(c, s, Push, i)
  {
    ReachableInv(c, steps, s);
    OccupancyBound(c, s);
    RollingCount(s.pool.workers, i);
  }

  /** The value of the last target may be out of date when a target is reserved.  The reservation is
      for a target never reserved before exactly when the target is above the last one pushed by
      then, which is what an atomic read would have ensured. */
  lemma ReservationIsFreshExactlyWhen(c: Config, steps: seq<Step>, s: State)
    requires Legal(c) && Reaches(c, steps, s) && Sound(s) && s.launcher.Read?
    requires NextTarget(c, s.launcher.g, s.launcher.last, s.books.reserved).Some?
    ensures var t := NextTarget(c, s.launcher.g, s.launcher.last, s.books.reserved).value;
            t !in s.books.history <==> t > s.last
    ensures s.launcher.last == s.last ==> !Reserved(c, s).books.rereserved
  {
    ReachableInv(c, steps, s);
    NewTargetIsNew(c, s);
  }

  /** The schedule takes the read of the last target and the reservation as one step. */
  ghost predicate AtomicReads(steps: seq<Step>)
  {
    forall i :: 0 <= i < |steps| && steps[i] == Launch(Reserve) ==> i > 0 && steps[i - 1] == Launch(ReadLast)
  }

  lemma FailedStays(c: Config, s: State, step: Step)
    requires Enabled(c, s, step) && !After(c, s, step).failed
    ensures !s.failed
  {
  }

  lemma OnlyReserveRepeats(c: Config, s: State, step: Step)
    requires Enabled(c, s, step) && step != Launch(Reserve)
    ensures After(c, s, step).books.rereserved == s.books.rereserved
  {
  }

  lemma JustRead(c: Config, steps: seq<Step>, s: State)
    requires Reaches(c, steps, s) && steps != [] && steps[|steps| - 1] == Launch(ReadLast)
    ensures s.launcher.Read? && s.launcher.last == s.last
  {
  }

  /** When every read of the last target is taken together with the reservation that uses it, no
      target is reserved again after it was pushed, so all results above hold of the run. */
  lemma {:induction false} AtomicReadsAreSound(c: Config, steps: seq<Step>, s: State)
    requires Legal(c) && Reaches(c, steps, s) && AtomicReads(steps) && !s.failed
    ensures Sound(s) && Bounded(c, s)
    decreases |steps|
  {
    if steps != [] {
      var earlier, step := steps[..|steps| - 1], steps[|steps| - 1];
      var before := Run(c, Initial(c), earlier).value;
      FailedStays(c, before, step);
      AtomicReadsAreSound(c, earlier, before);
      if step == Launch(Reserve) {
        JustRead(c, earlier, before);
        assert !Reserved(c, before).books.rereserved;
      } else {
        OnlyReserveRepeats(c, before, step);
      }
    }
    BoundedStaleness(c, steps, s);
  }
}
