/** Validation over several decodes that share one device: the variant loop of `validate`
    (nemo_rl/algorithms/grpo.py, lines 3182-3322) with its try/except/finally, and the predicates that
    route variants to engine groups (lines 339-370 and 463-484).

    Anything may go wrong: a preparation, a pass, a reconfiguration half way through, a restore, and a
    sleep or wake-up, which answers False instead of raising and whose answer the loop does not read.
 */
module ValidationHandOff {
  import opened DecodeKnobs

  /** A named decode.  `engineLevel`: its overrides carry the backend's engine-config key. */
  datatype Variant = Variant(name: string, knobs: Overrides, engineLevel: bool)

  datatype Preparing = Prepared | FailsAsleep | FailsAwake

  datatype Reconfiguring = Supported(reach: Reach) | Unsupported

  /** What goes wrong while a variant runs; any combination may happen. */
  datatype Mishaps = Mishaps(prepare: Preparing, reconfigure: Reconfiguring, passFails: bool, restore: Reach,
                             sleepFails: bool, wakeFails: bool, groupSleepFails: bool)

  datatype Outcome = Finished | Skipped | Raised

  /** A failure of the first, primary variant is raised, one of any other skips it. */
  function FailsSoftly(index: nat, failed: bool): Outcome
  {
    if !failed then Finished else if index == 0 then Raised else Skipped
  }

  // ---------------------------------------------------------------- routing

  function UsesRolloutGeneration(variants: seq<Variant>): bool
  {
    exists i :: 0 <= i < |variants| && !variants[i].engineLevel
  }

  function EngineGroups(variants: seq<Variant>): set<string>
  {
    set i | 0 <= i < |variants| && variants[i].engineLevel :: variants[i].name
  }

  /** Every group belongs to an engine-level variant, and every engine-level variant has one. */
  ghost predicate GroupsMatch(variants: seq<Variant>, groups: set<string>)
  {
    forall i :: 0 <= i < |variants| ==> (variants[i].name in groups <==> variants[i].engineLevel)
  }

  /** Groups built from the configuration match it; variant names are keys, so they differ. */
  lemma BuiltGroupsMatch(variants: seq<Variant>)
    requires forall i, j :: 0 <= i < j < |variants| ==> variants[i].name != variants[j].name
    ensures GroupsMatch(variants, EngineGroups(variants))
  {
    forall i | 0 <= i < |variants|
      ensures variants[i].name in EngineGroups(variants) <==> variants[i].engineLevel
    {
      if variants[i].name in EngineGroups(variants) {
        var j :| 0 <= j < |variants| && variants[j].engineLevel && variants[j].name == variants[i].name;
      }
    }
  }

  /** The variant is applied to the rollout engines by a reconfiguration. */
  predicate Reconfigures(v: Variant, groups: set<string>)
  {
    v.name !in groups && v.knobs != [] && !v.engineLevel
  }

  // ---------------------------------------------------------------- who is awake

  /** Which engines hold the device at one moment. */
  datatype Snapshot = Snapshot(rollout: bool, groups: set<string>)

  /** What a validation pass runs with: the engines awake, and the settings of the rollout engines. */
  datatype Pass = Pass(awake: Snapshot, decode: Knobs)

  ghost predicate OneAwake(s: Snapshot)
  {
    (s.rollout ==> s.groups == {}) && forall a, b :: a in s.groups && b in s.groups ==> a == b
  }

  ghost predicate AllOne(history: seq<Snapshot>)
  {
    forall i :: 0 <= i < |history| ==> OneAwake(history[i])
  }

  lemma OneMore(history: seq<Snapshot>, s: Snapshot)
    ensures AllOne(history + [s]) <==> AllOne(history) && OneAwake(s)
  {
    if AllOne(history + [s]) {
      forall i | 0 <= i < |history|
        ensures OneAwake(history[i])
      {
        assert history[i] == (history + [s])[i];
      }
      assert (history + [s])[|history|] == s;
    }
  }

  ghost predicate Within(s: Snapshot, t: Snapshot)
  {
    (s.rollout ==> t.rollout) && s.groups <= t.groups
  }

  /** Less awake is no worse. */
  lemma FewerAwake(s: Snapshot, t: Snapshot)
    requires Within(s, t) && OneAwake(t)
    ensures OneAwake(s)
  {
    assert t.groups == {} ==> s.groups == {};
  }

  /** A group's turn: what the rollout engines give up before its peak and what is left after it add nothing. */
  lemma OnlyThePeak(past: seq<Snapshot>, asleep: seq<Snapshot>, peak: Snapshot, after: Snapshot)
    requires past != [] && (asleep == past || exists s :: Within(s, past[|past| - 1]) && asleep == past + [s])
    requires Within(after, peak)
    ensures AllOne(asleep + [peak] + [after]) <==> AllOne(past) && OneAwake(peak)
  {
    OneMore(asleep + [peak], after);
    OneMore(asleep, peak);
    if asleep != past {
      var s :| Within(s, past[|past| - 1]) && asleep == past + [s];
      OneMore(past, s);
      if AllOne(past) {
        FewerAwake(s, past[|past| - 1]);
      }
    }
    if OneAwake(peak) {
      FewerAwake(after, peak);
    }
  }

  /** `holds` is the loop's `rollout_holds_device`, `now` what is really awake. */
  datatype Occupancy = Occupancy(holds: bool, now: Snapshot)

  function Slept(o: Occupancy, fails: bool): Occupancy
  {
    Occupancy(false, o.now.(rollout := o.now.rollout && fails))
  }

  function Woken(o: Occupancy, fails: bool): Occupancy
  {
    Occupancy(true, o.now.(rollout := o.now.rollout || !fails))
  }

  /** The most that is awake while a variant runs. */
  function Peak(o: Occupancy, v: Variant, groups: set<string>, m: Mishaps): Occupancy
  {
    if v.name in groups then
      var s := if o.holds then Slept(o, m.sleepFails) else o;
      if m.prepare.FailsAsleep? then s else s.(now := s.now.(groups := s.now.groups + {v.name}))
    else if o.holds then o
    else Woken(o, m.wakeFails)
  }

  /** What is awake after it. */
  function AfterVariant(o: Occupancy, v: Variant, groups: set<string>, m: Mishaps): Occupancy
  {
    var p := Peak(o, v, groups, m);
    if v.name in groups && !m.groupSleepFails then p.(now := p.now.(groups := p.now.groups - {v.name})) else p
  }

  /** Before the i-th variant. */
  function Before(o: Occupancy, variants: seq<Variant>, groups: set<string>, mishaps: seq<Mishaps>, i: nat): Occupancy
    requires i <= |variants| == |mishaps|
  {
    if i == 0 then o
    else AfterVariant(Before(o, variants, groups, mishaps, i - 1), variants[i - 1], groups, mishaps[i - 1])
  }

  /** No variant among the first n wakes an engine while another is awake. */
  ghost predicate PeaksFine(o: Occupancy, variants: seq<Variant>, groups: set<string>, mishaps: seq<Mishaps>, n: nat)
    requires n <= |variants| == |mishaps|
  {
    n == 0
    || (PeaksFine(o, variants, groups, mishaps, n - 1)
        && OneAwake(Peak(Before(o, variants, groups, mishaps, n - 1), variants[n - 1], groups, mishaps[n - 1]).now))
  }

  /** A failed hand-over: the rollout engines do not go to sleep and the group wakes all the same. */
  lemma FailedSleepOverlaps(o: Occupancy, v: Variant, groups: set<string>, m: Mishaps)
    requires v.name in groups && o.holds && o.now.rollout && m.sleepFails && m.prepare != FailsAsleep
    ensures !OneAwake(Peak(o, v, groups, m).now)
  {
    assert v.name in Peak(o, v, groups, m).now.groups;
  }

  /** Nothing but the rollout engines is awake, and the loop knows when they are. */
  ghost predicate InHand(o: Occupancy)
  {
    o.now.groups == {} && (o.now.rollout ==> o.holds)
  }

  lemma SoundStep(o: Occupancy, v: Variant, groups: set<string>, m: Mishaps)
    requires InHand(o) && !m.sleepFails && !m.groupSleepFails
    ensures OneAwake(Peak(o, v, groups, m).now) && InHand(AfterVariant(o, v, groups, m))
  {
  }

  /** As long as every sleep takes effect at most one engine is awake, whatever else fails. */
  lemma {:induction false} SoundSleeps(o: Occupancy, variants: seq<Variant>, groups: set<string>,
      mishaps: seq<Mishaps>, n: nat)
    requires n <= |variants| == |mishaps| && InHand(o)
    requires forall i :: 0 <= i < n ==> !mishaps[i].sleepFails && !mishaps[i].groupSleepFails
    ensures PeaksFine(o, variants, groups, mishaps, n) && InHand(Before(o, variants, groups, mishaps, n))
  {
    if n > 0 {
      SoundSleeps(o, variants, groups, mishaps, n - 1);
      SoundStep(Before(o, variants, groups, mishaps, n - 1), variants[n - 1], groups, mishaps[n - 1]);
    }
  }

  /** Without failing sleeps and wake-ups the loop's flag is right, and says whether the last variant ran on
      the rollout engines. */
  lemma {:induction false} FlagIsRight(o: Occupancy, variants: seq<Variant>, groups: set<string>,
      mishaps: seq<Mishaps>, n: nat)
    requires n <= |variants| == |mishaps| && o.now == Snapshot(o.holds, {})
    requires forall i :: 0 <= i < n ==> !mishaps[i].sleepFails && !mishaps[i].groupSleepFails && !mishaps[i].wakeFails
    ensures var b := Before(o, variants, groups, mishaps, n);
            b.now == Snapshot(b.holds, {}) && (n > 0 ==> b.holds == (variants[n - 1].name !in groups))
  {
    if n > 0 {
      FlagIsRight(o, variants, groups, mishaps, n - 1);
    }
  }

  // ---------------------------------------------------------------- what is left of the decode

  /** What a variant leaves written when the loop goes on: nothing after a restore, the part that was
      written when its reconfiguration raised. */
  function LeftBy(v: Variant, groups: set<string>, m: Mishaps): Knobs
  {
    if Reconfigures(v, groups) && m.reconfigure.Supported? && Raises(v.knobs, m.reconfigure.reach)
    then Written(v.knobs, m.reconfigure.reach) else map[]
  }

  /** The same for the first n variants; later writes win. */
  function LeftOver(variants: seq<Variant>, groups: set<string>, mishaps: seq<Mishaps>, n: nat): Knobs
    requires n <= |variants| == |mishaps|
  {
    if n == 0 then map[]
    else LeftOver(variants, groups, mishaps, n - 1) + LeftBy(variants[n - 1], groups, mishaps[n - 1])
  }

  /** If no reconfiguration raises after its first write, nothing is left. */
  lemma {:induction false} NothingLeft(variants: seq<Variant>, groups: set<string>, mishaps: seq<Mishaps>, n: nat)
    requires n <= |variants| == |mishaps|
    requires forall i :: 0 <= i < n ==> LeftBy(variants[i], groups, mishaps[i]) == map[]
    ensures LeftOver(variants, groups, mishaps, n) == map[]
  {
    if n > 0 {
      NothingLeft(variants, groups, mishaps, n - 1);
    }
  }

  /** The reconfiguration of variant v raises, after request j was written. */
  ghost predicate Leaves(v: Variant, groups: set<string>, m: Mishaps, j: nat)
  {
    && v.name !in groups && !v.engineLevel && m.reconfigure.Supported?
    && Raises(v.knobs, m.reconfigure.reach) && Handles(v.knobs, m.reconfigure.reach, j)
  }

  /** What a variant leaves written, request by request. */
  lemma LeftByExactly(v: Variant, groups: set<string>, m: Mishaps)
    requires InOrder(v.knobs)
    ensures forall j: nat :: Leaves(v, groups, m, j) ==>
              v.knobs[j].knob in LeftBy(v, groups, m)
              && LeftBy(v, groups, m)[v.knobs[j].knob] == v.knobs[j].setting.value
    ensures forall k :: k in LeftBy(v, groups, m) ==> exists j: nat :: Leaves(v, groups, m, j) && v.knobs[j].knob == k
  {
    if Reconfigures(v, groups) && m.reconfigure.Supported? {
      WrittenExactly(v.knobs, m.reconfigure.reach);
      forall k | k in LeftBy(v, groups, m)
        ensures exists j: nat :: Leaves(v, groups, m, j) && v.knobs[j].knob == k
      {
        var j: nat :| Handles(v.knobs, m.reconfigure.reach, j) && v.knobs[j].knob == k;
        assert Leaves(v, groups, m, j);
      }
    }
  }

  // ---------------------------------------------------------------- failures

  /** When a variant takes validation down: the primary one fails, or the decode of any cannot be
      restored after a pass, unless that would hide the primary's own error. */
  predicate FailsVariant(v: Variant, groups: set<string>, primary: bool, m: Mishaps)
  {
    (primary && Breaks(v, groups, m)) || (Switches(v, groups, m) && m.restore.BreaksAfter?)
  }

  /** The variant's own steps fail. */
  predicate Breaks(v: Variant, groups: set<string>, m: Mishaps)
  {
    if v.name in groups then m.prepare != Prepared || m.passFails
    else (Reconfigures(v, groups) && m.reconfigure.Supported? && Raises(v.knobs, m.reconfigure.reach)) || m.passFails
  }

  /** The variant changed the rollout decode and knows how to undo it. */
  predicate Switches(v: Variant, groups: set<string>, m: Mishaps)
  {
    Reconfigures(v, groups) && m.reconfigure.Supported? && !Raises(v.knobs, m.reconfigure.reach)
  }

  /** A secondary variant whose steps fail, or for which the backend cannot change the decode, is skipped. */
  predicate SkipsVariant(v: Variant, groups: set<string>, primary: bool, m: Mishaps)
  {
    && !primary && !FailsVariant(v, groups, primary, m)
    && (Breaks(v, groups, m) || (Reconfigures(v, groups) && m.reconfigure.Unsupported?))
  }

  /** How a variant ends, by the branch it takes. */
  function Fate(v: Variant, groups: set<string>, index: nat, m: Mishaps): Outcome
  {
    if v.name in groups then FailsSoftly(index, m.prepare != Prepared || m.passFails)
    else if v.knobs == [] || v.engineLevel then FailsSoftly(index, m.passFails)
    else match m.reconfigure
      case Unsupported => if index > 0 then Skipped else FailsSoftly(index, m.passFails)
      case Supported(reach) =>
        if Raises(v.knobs, reach) then FailsSoftly(index, true)
        else if m.restore.BreaksAfter? then Raised
        else FailsSoftly(index, m.passFails)
  }

  /** It raises and is skipped exactly under the two conditions. */
  lemma FateExactly(v: Variant, groups: set<string>, index: nat, m: Mishaps)
    ensures Fate(v, groups, index, m) == Raised <==> FailsVariant(v, groups, index == 0, m)
    ensures Fate(v, groups, index, m) == Skipped <==> SkipsVariant(v, groups, index == 0, m)
  {
  }

  /** A variant gets as far as its pass. */
  predicate PassRuns(v: Variant, groups: set<string>, primary: bool, m: Mishaps)
  {
    if v.name in groups then m.prepare.Prepared?
    else if !Reconfigures(v, groups) then true
    else if m.reconfigure.Unsupported? then primary
    else !Raises(v.knobs, m.reconfigure.reach)
  }

  /** What the pass of a variant on the rollout engines asks for. */
  function AskedBy(v: Variant, groups: set<string>, m: Mishaps): Overrides
  {
    if Switches(v, groups, m) then v.knobs else []
  }

  ghost predicate NoneFails(variants: seq<Variant>, groups: set<string>, mishaps: seq<Mishaps>, n: nat)
    requires n <= |variants| == |mishaps|
  {
    forall j :: 0 <= j < n ==> !FailsVariant(variants[j], groups, j == 0, mishaps[j])
  }

  ghost predicate FailsFirst(variants: seq<Variant>, groups: set<string>, mishaps: seq<Mishaps>, i: nat)
    requires |mishaps| == |variants|
  {
    && i < |variants| && FailsVariant(variants[i], groups, i == 0, mishaps[i])
    && NoneFails(variants, groups, mishaps, i)
  }

  // ---------------------------------------------------------------- the loop

  class Device {
    const engine: Engine
    var rolloutAwake: bool
    var awakeGroups: set<string>
    ghost var history: seq<Snapshot>
    ghost var passes: map<nat, Pass>  // by position of the variant

    constructor (awake: bool, config: Knobs)
      ensures fresh(engine) && engine.decode == config && Now() == Snapshot(awake, {}) && history == [Now()]
    {
      engine := new Engine(config);
      rolloutAwake, awakeGroups := awake, {};
      history, passes := [Snapshot(awake, {})], map[];
    }

    function Now(): Snapshot
      reads this
    {
      Snapshot(rolloutAwake, awakeGroups)
    }

    ghost predicate NeverTwoAwake()
      reads this
    {
      AllOne(history)
    }

    /** The history ends with what is awake now. */
    ghost predicate Recorded()
      reads this
    {
      history != [] && history[|history| - 1] == Now()
    }

    /** `policy_generation.sleep()`; a failure is only answered. */
    method Sleep(fails: bool)
      modifies `history, `rolloutAwake
      ensures Now() == old(Now()).(rollout := old(rolloutAwake) && fails) && history == old(history) + [Now()]
    {
      rolloutAwake := rolloutAwake && fails;
      history := history + [Now()];
    }

    method WakeUp(fails: bool)
      modifies `history, `rolloutAwake
      ensures Now() == old(Now()).(rollout := old(rolloutAwake) || !fails) && history == old(history) + [Now()]
    {
      rolloutAwake := rolloutAwake || !fails;
      history := history + [Now()];
    }

    method SleepGroup(g: string, fails: bool)
      modifies `history, `awakeGroups
      ensures Now() == old(Now()).(groups := if fails then old(awakeGroups) else old(awakeGroups) - {g})
      ensures history == old(history) + [Now()]
    {
      if !fails {
        awakeGroups := awakeGroups - {g};
      }
      history := history + [Now()];
    }

    /** `prepare_val_generation`: wake and refit a group; it may fail before or after the wake. */
    method PrepareGroup(g: string, p: Preparing) returns (ok: bool)
      modifies `history, `awakeGroups
      ensures ok == p.Prepared?
      ensures Now() == old(Now()).(groups := if p.FailsAsleep? then old(awakeGroups) else old(awakeGroups) + {g})
      ensures history == old(history) + [Now()]
    {
      if !p.FailsAsleep? {
        awakeGroups := awakeGroups + {g};
      }
      history := history + [Now()];
      ok := p.Prepared?;
    }

    /** The part of a variant with a group of its own: hand the device over, run, put the group to sleep. */
    method RunOnGroup(v: Variant, ghost groups: set<string>, ghost index: nat, m: Mishaps, holds: bool)
      returns (failed: bool)
      requires v.name in groups && Recorded()
      modifies this
      ensures Recorded() && failed == (m.prepare != Prepared || m.passFails)
      ensures Now() == AfterVariant(Occupancy(holds, old(Now())), v, groups, m).now
      ensures NeverTwoAwake()
         <==> old(NeverTwoAwake()) && OneAwake(Peak(Occupancy(holds, old(Now())), v, groups, m).now)
      ensures passes == if m.prepare != Prepared then old(passes) else
                old(passes)[index := Pass(Peak(Occupancy(holds, old(Now())), v, groups, m).now, engine.decode)]
    {
      ghost var o, past := Occupancy(holds, Now()), history;
      ghost var peak := Peak(o, v, groups, m).now;
      if holds {
        Sleep(m.sleepFails);
      }
      ghost var asleep := history;
      var ok := PrepareGroup(v.name, m.prepare);
      if ok {
        passes := passes[index := Pass(Now(), engine.decode)];
      }
      failed := !ok || m.passFails;
      SleepGroup(v.name, m.groupSleepFails);
      OnlyThePeak(past, asleep, peak, Now());
    }

    /** The rollout engines take the device back, once. */
    method TakeBack(holds: bool, fails: bool)
      requires Recorded()
      modifies `history, `rolloutAwake
      ensures Recorded() && Now() == (if holds then old(Now()) else Woken(Occupancy(holds, old(Now())), fails).now)
      ensures NeverTwoAwake() <==> old(NeverTwoAwake()) && OneAwake(Now())
    {
      if !holds {
        OneMore(history, Woken(Occupancy(holds, Now()), fails).now);
        WakeUp(fails);
      } else if AllOne(history) {
        assert OneAwake(history[|history| - 1]);
      }
    }

    /** Apply a variant's settings to the rollout engines, if it has any and they can change. */
    method Change(v: Variant, ghost groups: set<string>, primary: bool, m: Mishaps)
      returns (failed: bool, skipped: bool, restore: Overrides)
      requires v.name !in groups && InOrder(v.knobs) && Complete(engine.decode)
      modifies engine
      ensures Complete(engine.decode)
      ensures failed <==> Reconfigures(v, groups) && m.reconfigure.Supported? && !Switches(v, groups, m)
      ensures skipped <==> Reconfigures(v, groups) && m.reconfigure.Unsupported? && !primary
      ensures if Switches(v, groups, m) then restore != [] && Reported(old(engine.decode), v.knobs, restore, |v.knobs|)
              else restore == []
      ensures engine.decode ==
                old(engine.decode) + if failed then LeftBy(v, groups, m) else Written(AskedBy(v, groups, m), ToTheEnd)
    {
      failed, skipped, restore := false, false, [];
      if v.knobs != [] && !v.engineLevel {
        if m.reconfigure.Supported? {
          failed, restore := engine.Reconfigure(v.knobs, m.reconfigure.reach);
          if failed {
            restore := [];
          }
        } else {
          skipped := !primary;
        }
      }
    }

    /** Write the reported settings back. */
    method Undo(over: Overrides, restore: Overrides, reach: Reach, ghost before: Knobs) returns (broken: bool)
      requires InOrder(over) && !Raises(over, ToTheEnd) && Reported(before, over, restore, |over|)
      requires Complete(before) && Complete(engine.decode) && engine.decode == before + Written(over, ToTheEnd)
      modifies engine
      ensures Complete(engine.decode) && broken == reach.BreaksAfter? && (!broken ==> engine.decode == before)
    {
      RestoreUndoes(before, over, restore);
      var previous: Overrides;
      broken, previous := engine.Reconfigure(restore, reach);
    }

    /** A variant on the rollout engines: reconfigure, run, restore. */
    method RunOnRollout(v: Variant, ghost groups: set<string>, index: nat, m: Mishaps) returns (outcome: Outcome)
      requires v.name !in groups && InOrder(v.knobs) && Complete(engine.decode)
      modifies `passes, engine
      ensures Complete(engine.decode)
      ensures outcome == Fate(v, groups, index, m)
      ensures passes == if !PassRuns(v, groups, index == 0, m) then old(passes) else
                old(passes)[index := Pass(Now(), old(engine.decode) + Written(AskedBy(v, groups, m), ToTheEnd))]
      ensures outcome != Raised ==> engine.decode == old(engine.decode) + LeftBy(v, groups, m)
    {
      ghost var before := engine.decode;
      var primary := index == 0;
      var failed, skipped, restore := Change(v, groups, primary, m);
      if !failed && !skipped {
        passes := passes[index := Pass(Now(), engine.decode)];
        failed := m.passFails;
      }
      outcome := if failed && primary then Raised else if failed || skipped then Skipped else Finished;
      if restore != [] {
        var broken := Undo(v.knobs, restore, m.restore, before);
        if broken && (!failed || !primary) {
          outcome := Raised;
        }
      }
    }

    /** One variant: hand the device to whoever decodes it, run the pass, and undo in `finally`. */
    method RunVariant(v: Variant, groups: set<string>, index: nat, m: Mishaps, holds: bool)
      returns (outcome: Outcome, holding: bool)
      requires Recorded() && InOrder(v.knobs) && Complete(engine.decode)
      modifies this, engine
      ensures Recorded() && Complete(engine.decode)
      ensures Occupancy(holding, Now()) == AfterVariant(Occupancy(holds, old(Now())), v, groups, m)
      ensures NeverTwoAwake()
         <==> old(NeverTwoAwake()) && OneAwake(Peak(Occupancy(holds, old(Now())), v, groups, m).now)
      ensures v.name in groups ==> !holding && rolloutAwake == (old(rolloutAwake) && (holds ==> m.sleepFails))
      ensures v.name in groups ==>
                awakeGroups == old(awakeGroups) + (if m.prepare.FailsAsleep? then {} else {v.name})
                               - (if m.groupSleepFails then {} else {v.name})
      ensures v.name !in groups ==> holding && awakeGroups == old(awakeGroups)
                                      && rolloutAwake == (old(rolloutAwake) || (!holds && !m.wakeFails))
      ensures outcome == Fate(v, groups, index, m)
      ensures outcome != Raised ==> engine.decode == old(engine.decode) + LeftBy(v, groups, m)
      ensures !PassRuns(v, groups, index == 0, m) ==> passes == old(passes)
      ensures PassRuns(v, groups, index == 0, m) ==>
                && index in passes && passes == old(passes)[index := passes[index]]
                && passes[index].awake == Peak(Occupancy(holds, old(Now())), v, groups, m).now
                && (v.name !in groups ==>
                      passes[index].decode == old(engine.decode) + Written(AskedBy(v, groups, m), ToTheEnd))
    {
      if v.name in groups {
        var failed := RunOnGroup(v, groups, index, m, holds);
        outcome := if !failed then Finished else if index == 0 then Raised else Skipped;
        holding := false;
      } else {
        TakeBack(holds, m.wakeFails);
        outcome := RunOnRollout(v, groups, index, m);
        holding := true;
      }
    }

    /** Where the loop stands after n variants. */
    ghost predicate After(variants: seq<Variant>, groups: set<string>, mishaps: seq<Mishaps>, n: nat, holds: bool,
        entry: Occupancy)
      requires n <= |variants| == |mishaps|
      reads this
    {
      && Recorded() && Occupancy(holds, Now()) == Before(entry, variants, groups, mishaps, n)
      && (NeverTwoAwake() <==> PeaksFine(entry, variants, groups, mishaps, n))
    }

    /** One turn of the loop. */
    method RunNext(variants: seq<Variant>, groups: set<string>, mishaps: seq<Mishaps>, n: nat, holds: bool,
                   ghost entry: Occupancy, ghost config: Knobs) returns (outcome: Outcome, holding: bool)
      requires n < |variants| == |mishaps| && InOrder(variants[n].knobs) && Complete(engine.decode)
      requires After(variants, groups, mishaps, n, holds, entry)
      requires PassesAre(passes, variants, groups, mishaps, n, entry, config)
      requires engine.decode == config + LeftOver(variants, groups, mishaps, n)
      modifies this, engine
      ensures Complete(engine.decode) && After(variants, groups, mishaps, n + 1, holding, entry)
      ensures PassesAre(passes, variants, groups, mishaps, n + 1, entry, config)
      ensures outcome == Raised <==> FailsVariant(variants[n], groups, n == 0, mishaps[n])
      ensures outcome != Raised ==> engine.decode == config + LeftOver(variants, groups, mishaps, n + 1)
    {
      ghost var left, before := LeftOver(variants, groups, mishaps, n), passes;
      outcome, holding := RunVariant(variants[n], groups, n, mishaps[n], holds);
      FateExactly(variants[n], groups, n, mishaps[n]);
      OneMorePass(before, passes, variants, groups, mishaps, n, entry, config);
      PlusPlus(config, left, LeftBy(variants[n], groups, mishaps[n]));
    }

    /** The loop up to the first variant that raises; `ran` counts the variants that ran. */
    method RunUntilRaised(variants: seq<Variant>, groups: set<string>, mishaps: seq<Mishaps>, expected: bool)
      returns (raised: bool, ran: nat, holds: bool)
      requires |mishaps| == |variants| && forall i :: 0 <= i < |variants| ==> InOrder(variants[i].knobs)
      requires Recorded() && NeverTwoAwake() && Complete(engine.decode)
      modifies this, engine
      ensures Complete(engine.decode) && ran <= |variants|
      ensures if raised then ran > 0 && FailsFirst(variants, groups, mishaps, ran - 1)
              else ran == |variants| && NoneFails(variants, groups, mishaps, ran)
      ensures After(variants, groups, mishaps, ran, holds, Occupancy(expected, old(Now())))
      ensures PassesAre(passes, variants, groups, mishaps, ran, Occupancy(expected, old(Now())), old(engine.decode))
      ensures !raised ==> engine.decode == old(engine.decode) + LeftOver(variants, groups, mishaps, ran)
    {
      holds := expected;
      ghost var entry, config := Occupancy(expected, Now()), engine.decode;
      ran, passes := 0, map[];
      while ran < |variants|
        invariant ran <= |variants| && Complete(engine.decode) && NoneFails(variants, groups, mishaps, ran)
        invariant After(variants, groups, mishaps, ran, holds, entry)
        invariant PassesAre(passes, variants, groups, mishaps, ran, entry, config)
        invariant engine.decode == config + LeftOver(variants, groups, mishaps, ran)
      {
        var outcome: Outcome;
        outcome, holds := RunNext(variants, groups, mishaps, ran, holds, entry, config);
        ran := ran + 1;
        if outcome == Raised {
          return true, ran, holds;
        }
      }
      raised := false;
    }

    /** The loop, and the wake-up after it. */
    method RunAll(variants: seq<Variant>, groups: set<string>, mishaps: seq<Mishaps>, finalWakeFails: bool)
      returns (raised: bool, ran: nat)
      requires |mishaps| == |variants| && forall i :: 0 <= i < |variants| ==> InOrder(variants[i].knobs)
      requires Recorded() && NeverTwoAwake() && Complete(engine.decode)
      modifies this, engine
      ensures Complete(engine.decode) && ran <= |variants|
      ensures if raised then ran > 0 && FailsFirst(variants, groups, mishaps, ran - 1)
              else ran == |variants| && NoneFails(variants, groups, mishaps, ran)
      ensures Now() == AtReturn(variants, groups, mishaps, finalWakeFails, old(Now()), raised, ran)
      ensures NeverTwoAwake() <==>
                && PeaksFine(Occupancy(UsesRolloutGeneration(variants), old(Now())), variants, groups, mishaps, ran)
                && OneAwake(Now())
      ensures PassesAre(passes, variants, groups, mishaps, ran,
                Occupancy(UsesRolloutGeneration(variants), old(Now())), old(engine.decode))
      ensures !raised ==> engine.decode == old(engine.decode) + LeftOver(variants, groups, mishaps, ran)
    {
      var expected := UsesRolloutGeneration(variants);
      var holds: bool;
      raised, ran, holds := RunUntilRaised(variants, groups, mishaps, expected);
      if AllOne(history) {
        assert OneAwake(history[|history| - 1]);
      }
      if !raised && expected {
        TakeBack(holds, finalWakeFails);
      }
    }

    /** The variant loop, whatever fails.  `finalWakeFails` is the fate of the wake-up at the end.  At most one
        engine holds the device at every moment exactly if no variant that ran, nor that wake-up, wakes one
        while another is awake; when names differ and what should wake does, exactly if the sleeps that matter
        take effect.  On normal return the rollout decode is what the reconfigurations that raised
        half way left of it, so as at entry exactly if everything they left written has its old value. */
    method RunVariants(variants: seq<Variant>, groups: set<string>, mishaps: seq<Mishaps>, finalWakeFails: bool)
      returns (raised: bool, ran: nat)
      requires |mishaps| == |variants| && forall i :: 0 <= i < |variants| ==> InOrder(variants[i].knobs)
      requires Recorded() && NeverTwoAwake() && Complete(engine.decode)
      modifies this, engine
      ensures Complete(engine.decode) && ran <= |variants|
      ensures if raised then ran > 0 && FailsFirst(variants, groups, mishaps, ran - 1)
              else ran == |variants| && NoneFails(variants, groups, mishaps, ran)
      ensures Now() == AtReturn(variants, groups, mishaps, finalWakeFails, old(Now()), raised, ran)
      ensures NeverTwoAwake() <==>
                && PeaksFine(Occupancy(UsesRolloutGeneration(variants), old(Now())), variants, groups, mishaps, ran)
                && OneAwake(Now())
      ensures old(Now()) == Snapshot(UsesRolloutGeneration(variants), {}) && Wakes(variants, mishaps, ran) ==>
                (NeverTwoAwake() <==> SleepsTakeEffect(variants, groups, mishaps, UsesRolloutGeneration(variants), ran,
                                        raised || !UsesRolloutGeneration(variants) || finalWakeFails))
      ensures PassesFit(passes, variants, groups, mishaps, ran, old(engine.decode))
      ensures old(Now()) == Snapshot(UsesRolloutGeneration(variants), {}) && Wakes(variants, mishaps, ran) &&
                SleepsTakeEffect(variants, groups, mishaps, UsesRolloutGeneration(variants), ran, true) ==>
                OneEngineEach(passes, variants, groups)
      ensures !raised ==> DecodeIs(old(engine.decode), engine.decode, variants, groups, mishaps, ran, [])
      ensures !raised ==> (engine.decode == old(engine.decode) <==>
                Harmless(old(engine.decode), variants, groups, mishaps, ran))
    {
      ghost var expected, before := UsesRolloutGeneration(variants), engine.decode;
      raised, ran := RunAll(variants, groups, mishaps, finalWakeFails);
      PassesFitTheirVariants(passes, variants, groups, mishaps, ran, Occupancy(expected, old(Now())), before);
      LeftIsExact(before, variants, groups, mishaps, ran);
      RestoredExactlyWhen(before, variants, groups, mishaps, ran);
      if old(Now()) == Snapshot(expected, {}) && Wakes(variants, mishaps, ran) {
        OneAwakeExactlyWhen(variants, groups, mishaps, finalWakeFails, raised, ran);
        if SleepsTakeEffect(variants, groups, mishaps, expected, ran, true) {
          PassesOnTheirEngines(passes, variants, groups, mishaps, ran, expected, before);
        }
      }
    }
  }

  /** The pass of variant i runs at its peak and, on the rollout engines, with its own settings over what the
      variants before it left. */
  ghost predicate PassIs(p: Pass, variants: seq<Variant>, groups: set<string>, mishaps: seq<Mishaps>, i: nat,
      entry: Occupancy, config: Knobs)
    requires i < |variants| == |mishaps|
  {
    && p.awake == Peak(Before(entry, variants, groups, mishaps, i), variants[i], groups, mishaps[i]).now
    && (variants[i].name !in groups ==> p.decode == config + LeftOver(variants, groups, mishaps, i)
                                          + Written(AskedBy(variants[i], groups, mishaps[i]), ToTheEnd))
  }

  /** The passes of the first n variants, from the last one. */
  ghost predicate PassesAre(passes: map<nat, Pass>, variants: seq<Variant>, groups: set<string>, mishaps: seq<Mishaps>,
      n: nat, entry: Occupancy, config: Knobs)
    requires n <= |variants| == |mishaps|
  {
    if n == 0 then passes == map[]
    else
      && (n - 1 in passes <==> PassRuns(variants[n - 1], groups, n == 1, mishaps[n - 1]))
      && (n - 1 in passes ==> PassIs(passes[n - 1], variants, groups, mishaps, n - 1, entry, config))
      && PassesAre(passes - {n - 1}, variants, groups, mishaps, n - 1, entry, config)
  }

  lemma {:induction false} OnlyEarlier(passes: map<nat, Pass>, variants: seq<Variant>, groups: set<string>,
      mishaps: seq<Mishaps>, n: nat, entry: Occupancy, config: Knobs, i: nat)
    requires n <= |variants| == |mishaps| && PassesAre(passes, variants, groups, mishaps, n, entry, config)
    ensures i in passes <==> i < n && PassRuns(variants[i], groups, i == 0, mishaps[i])
    ensures i in passes ==> PassIs(passes[i], variants, groups, mishaps, i, entry, config)
  {
    if n > 0 && i != n - 1 {
      OnlyEarlier(passes - {n - 1}, variants, groups, mishaps, n - 1, entry, config, i);
    }
  }

  lemma OneMorePass(before: map<nat, Pass>, after: map<nat, Pass>, variants: seq<Variant>, groups: set<string>,
      mishaps: seq<Mishaps>, n: nat, entry: Occupancy, config: Knobs)
    requires n < |variants| == |mishaps| && PassesAre(before, variants, groups, mishaps, n, entry, config)
    requires !PassRuns(variants[n], groups, n == 0, mishaps[n]) ==> after == before
    requires PassRuns(variants[n], groups, n == 0, mishaps[n]) ==>
               && n in after && after == before[n := after[n]]
               && PassIs(after[n], variants, groups, mishaps, n, entry, config)
    ensures PassesAre(after, variants, groups, mishaps, n + 1, entry, config)
  {
    OnlyEarlier(before, variants, groups, mishaps, n, entry, config, n);
    assert after - {n} == before;
  }

  /** The passes ran that could, each on the rollout engines under the settings of its variant. */
  ghost predicate PassesFit(passes: map<nat, Pass>, variants: seq<Variant>, groups: set<string>, mishaps: seq<Mishaps>,
      n: nat, config: Knobs)
    requires n <= |variants| == |mishaps|
  {
    && (forall i: nat :: i in passes <==> i < n && PassRuns(variants[i], groups, i == 0, mishaps[i]))
    && (forall i: nat :: i in passes && variants[i].name !in groups ==>
          DecodeIs(config, passes[i].decode, variants, groups, mishaps, i, AskedBy(variants[i], groups, mishaps[i])))
  }

  /** Every pass ran with the engine that it decodes on awake, and no other. */
  ghost predicate OneEngineEach(passes: map<nat, Pass>, variants: seq<Variant>, groups: set<string>)
  {
    forall i: nat :: i in passes ==> i < |variants| && passes[i].awake == OwnEngine(variants[i], groups)
  }

  lemma PassesFitTheirVariants(passes: map<nat, Pass>, variants: seq<Variant>, groups: set<string>,
      mishaps: seq<Mishaps>, n: nat, entry: Occupancy, config: Knobs)
    requires n <= |variants| == |mishaps| && Complete(config)
    requires forall x :: 0 <= x < |variants| ==> InOrder(variants[x].knobs)
    requires PassesAre(passes, variants, groups, mishaps, n, entry, config)
    ensures PassesFit(passes, variants, groups, mishaps, n, config)
  {
    forall i: nat
      ensures i in passes <==> i < n && PassRuns(variants[i], groups, i == 0, mishaps[i])
    {
      OnlyEarlier(passes, variants, groups, mishaps, n, entry, config, i);
    }
    forall i: nat | i in passes && variants[i].name !in groups
      ensures DecodeIs(config, passes[i].decode, variants, groups, mishaps, i,
                AskedBy(variants[i], groups, mishaps[i]))
    {
      OnlyEarlier(passes, variants, groups, mishaps, n, entry, config, i);
      DecodeOfPass(passes[i], variants, groups, mishaps, i, entry, config);
    }
  }

  /** If the sleeps that matter take effect, every pass has the device to itself. */
  lemma PassesOnTheirEngines(passes: map<nat, Pass>, variants: seq<Variant>, groups: set<string>,
      mishaps: seq<Mishaps>, n: nat, expected: bool, config: Knobs)
    requires n <= |variants| == |mishaps| && Wakes(variants, mishaps, n)
    requires SleepsTakeEffect(variants, groups, mishaps, expected, n, true)
    requires PassesAre(passes, variants, groups, mishaps, n, Occupancy(expected, Snapshot(expected, {})), config)
    ensures OneEngineEach(passes, variants, groups)
  {
    forall i: nat | i in passes
      ensures i < |variants| && passes[i].awake == OwnEngine(variants[i], groups)
    {
      OnlyEarlier(passes, variants, groups, mishaps, n, Occupancy(expected, Snapshot(expected, {})), config, i);
      OwnEngineIsAwake(variants, groups, mishaps, expected, n, i);
    }
  }

  /** The engine a variant decodes on, alone. */
  function OwnEngine(v: Variant, groups: set<string>): Snapshot
  {
    if v.name in groups then Snapshot(false, {v.name}) else Snapshot(true, {})
  }

  /** Among the first n variants, request j of variant i is the last one for its setting that a raising
      reconfiguration left written. */
  ghost predicate LastWrite(variants: seq<Variant>, groups: set<string>, mishaps: seq<Mishaps>, n: nat, i: nat, j: nat)
    requires n <= |variants| == |mishaps|
  {
    && i < n && Leaves(variants[i], groups, mishaps[i], j)
    && forall x: nat, y: nat :: i < x < n && Leaves(variants[x], groups, mishaps[x], y) ==>
         variants[x].knobs[y].knob != variants[i].knobs[j].knob
  }

  ghost predicate NeverLeft(variants: seq<Variant>, groups: set<string>, mishaps: seq<Mishaps>, n: nat, k: Knob)
    requires n <= |variants| == |mishaps|
  {
    forall x: nat, y: nat :: x < n && Leaves(variants[x], groups, mishaps[x], y) ==> variants[x].knobs[y].knob != k
  }

  predicate Asks(over: Overrides, k: Knob)
  {
    exists i :: 0 <= i < |over| && over[i].knob == k
  }

  /** The settings after the first n variants, with `asked` on top: a setting asked for has the value asked for,
      any other the value last left by a raising reconfiguration, or the one at entry. */
  ghost predicate DecodeIs(entry: Knobs, decode: Knobs, variants: seq<Variant>, groups: set<string>,
      mishaps: seq<Mishaps>, n: nat, asked: Overrides)
    requires n <= |variants| == |mishaps|
  {
    && decode.Keys == entry.Keys
    && (forall i: nat :: i < |asked| ==>
          asked[i].knob in decode && asked[i].setting == Usable(decode[asked[i].knob]))
    && (forall i: nat, j: nat :: LastWrite(variants, groups, mishaps, n, i, j) ==>
          var r := variants[i].knobs[j];
          !Asks(asked, r.knob) ==> r.knob in decode && r.setting == Usable(decode[r.knob]))
    && (forall k :: k in entry && !Asks(asked, k) && NeverLeft(variants, groups, mishaps, n, k) ==>
          decode[k] == entry[k])
  }

  /** Every setting that a raising reconfiguration left written was last written with its old value. */
  ghost predicate Harmless(decode: Knobs, variants: seq<Variant>, groups: set<string>, mishaps: seq<Mishaps>, n: nat)
    requires n <= |variants| == |mishaps|
  {
    forall i: nat, j: nat :: LastWrite(variants, groups, mishaps, n, i, j) ==>
      variants[i].knobs[j].knob in decode
      && variants[i].knobs[j].setting == Usable(decode[variants[i].knobs[j].knob])
  }

  /** What is awake when validation ends: the rollout engines get the device back if they were expected to
      hold it, unless a variant raised. */
  ghost function AtReturn(variants: seq<Variant>, groups: set<string>, mishaps: seq<Mishaps>, finalWakeFails: bool,
                          entry: Snapshot, raised: bool, ran: nat): Snapshot
    requires ran <= |variants| == |mishaps|
  {
    var expected := UsesRolloutGeneration(variants);
    var last := Before(Occupancy(expected, entry), variants, groups, mishaps, ran);
    if !raised && expected && !last.holds then Woken(last, finalWakeFails).now else last.now
  }

  lemma PlusPlus(a: Knobs, b: Knobs, c: Knobs)
    ensures (a + b) + c == a + (b + c)
  {
  }

  /** On normal return, when sleeps and wake-ups take effect, the rollout engines are awake as at entry exactly
      if some variant decodes on them or the last one has a group of its own; so always, when the groups are
      those of the engine-level variants. */
  lemma AwakeAsAtEntry(variants: seq<Variant>, groups: set<string>, mishaps: seq<Mishaps>)
    requires variants != [] && |mishaps| == |variants|
    requires forall i :: 0 <= i < |mishaps| ==>
              !mishaps[i].sleepFails && !mishaps[i].groupSleepFails && !mishaps[i].wakeFails
    ensures var expected := UsesRolloutGeneration(variants);
            var end := AtReturn(variants, groups, mishaps, false, Snapshot(expected, {}), false, |variants|);
            && end.groups == {}
            && (end.rollout == expected <==> expected || variants[|variants| - 1].name in groups)
            && (GroupsMatch(variants, groups) ==> end.rollout == expected)
  {
    var expected := UsesRolloutGeneration(variants);
    FlagIsRight(Occupancy(expected, Snapshot(expected, {})), variants, groups, mishaps, |variants|);
  }

  /** At most one engine is awake at every moment of a run in which every sleep takes effect. */
  lemma OneAwakeWhenSleepsWork(variants: seq<Variant>, groups: set<string>, mishaps: seq<Mishaps>,
      finalWakeFails: bool, raised: bool, ran: nat)
    requires |mishaps| == |variants| && ran <= |variants|
    requires forall i :: 0 <= i < ran ==> !mishaps[i].sleepFails && !mishaps[i].groupSleepFails
    ensures var expected := UsesRolloutGeneration(variants);
            var entry := Snapshot(expected, {});
            PeaksFine(Occupancy(expected, entry), variants, groups, mishaps, ran)
            && OneAwake(AtReturn(variants, groups, mishaps, finalWakeFails, entry, raised, ran))
  {
    var expected := UsesRolloutGeneration(variants);
    SoundSleeps(Occupancy(expected, Snapshot(expected, {})), variants, groups, mishaps, ran);
  }

  /** Variant i is not the one before it again, a preparation gets as far as waking its group, and a wake-up of
      the rollout engines takes effect. */
  predicate WakesAt(variants: seq<Variant>, mishaps: seq<Mishaps>, i: nat)
    requires i < |variants| == |mishaps|
  {
    && (i > 0 ==> variants[i - 1].name != variants[i].name)
    && !mishaps[i].prepare.FailsAsleep? && !mishaps[i].wakeFails
  }

  ghost predicate Wakes(variants: seq<Variant>, mishaps: seq<Mishaps>, n: nat)
    requires n <= |variants| == |mishaps|
  {
    forall i: nat :: i < n ==> WakesAt(variants, mishaps, i)
  }

  /** The rollout engines are asked to sleep by the i-th variant, if that one has a group. */
  predicate HeldBefore(variants: seq<Variant>, groups: set<string>, expected: bool, i: nat)
    requires i <= |variants|
  {
    if i == 0 then expected else variants[i - 1].name !in groups
  }

  /** If the rollout engines hold the device when the group of variant i is due, they go to sleep. */
  predicate Relinquished(variants: seq<Variant>, groups: set<string>, mishaps: seq<Mishaps>, expected: bool, i: nat)
    requires i < |variants| == |mishaps|
  {
    variants[i].name in groups && mishaps[i].sleepFails ==> !HeldBefore(variants, groups, expected, i)
  }

  /** The group of variant i goes back to sleep, if it has one. */
  predicate Settled(variants: seq<Variant>, groups: set<string>, mishaps: seq<Mishaps>, i: nat)
    requires i < |variants| == |mishaps|
  {
    variants[i].name in groups ==> !mishaps[i].groupSleepFails
  }

  /** The sleeps that matter among the first n variants take effect; with `idle` nothing wakes after the last of
      them, and its group may stay awake. */
  ghost predicate SleepsTakeEffect(variants: seq<Variant>, groups: set<string>, mishaps: seq<Mishaps>, expected: bool,
      n: nat, idle: bool)
    requires n <= |variants| == |mishaps|
  {
    && (forall i: nat :: i < n ==> Relinquished(variants, groups, mishaps, expected, i))
    && (forall i: nat :: i < n && !(idle && i == n - 1) ==> Settled(variants, groups, mishaps, i))
  }

  lemma FlagBefore(variants: seq<Variant>, groups: set<string>, mishaps: seq<Mishaps>, o: Occupancy, n: nat)
    requires n <= |variants| == |mishaps|
    ensures Before(o, variants, groups, mishaps, n).holds == HeldBefore(variants, groups, o.holds, n)
  {
  }

  /** While they do, exactly the rollout engines are awake, if they hold the device. */
  lemma {:induction false} OnlyTheHolder(variants: seq<Variant>, groups: set<string>, mishaps: seq<Mishaps>,
      expected: bool, n: nat)
    requires n <= |variants| == |mishaps| && Wakes(variants, mishaps, n)
    requires SleepsTakeEffect(variants, groups, mishaps, expected, n, false)
    ensures var b := Before(Occupancy(expected, Snapshot(expected, {})), variants, groups, mishaps, n);
            b.now == Snapshot(b.holds, {})
  {
    if n > 0 {
      OnlyTheHolder(variants, groups, mishaps, expected, n - 1);
      FlagBefore(variants, groups, mishaps, Occupancy(expected, Snapshot(expected, {})), n - 1);
      assert WakesAt(variants, mishaps, n - 1);
      assert Relinquished(variants, groups, mishaps, expected, n - 1) && Settled(variants, groups, mishaps, n - 1);
    }
  }

  /** One variant, when only the holder is awake: it peaks within bounds exactly when the rollout engines make
      room, and leaves its group awake exactly when that one does not settle. */
  lemma PeakExactly(o: Occupancy, v: Variant, groups: set<string>, m: Mishaps)
    requires o.now == Snapshot(o.holds, {}) && !m.prepare.FailsAsleep? && !m.wakeFails
    ensures OneAwake(Peak(o, v, groups, m).now) <==> !(v.name in groups && m.sleepFails && o.holds)
    ensures var after := AfterVariant(o, v, groups, m);
            && (v.name in groups && m.groupSleepFails ==> v.name in after.now.groups)
            && (!(v.name in groups && m.groupSleepFails) ==> after.now.groups == {})
  {
    if v.name in groups && o.holds && m.sleepFails {
      FailedSleepOverlaps(o, v, groups, m);
    }
  }

  /** After a group that did not go to sleep, whatever wakes next overlaps with it. */
  lemma LingeringOverlaps(o: Occupancy, v: Variant, groups: set<string>, m: Mishaps, g: string)
    requires g in o.now.groups && g != v.name && !o.holds && !m.prepare.FailsAsleep? && !m.wakeFails
    ensures !OneAwake(Peak(o, v, groups, m).now)
  {
    var s := Peak(o, v, groups, m).now;
    assert g in s.groups;
    assert v.name in groups ==> v.name in s.groups;
  }

  /** Peaks within bounds, exactly: the last of n variants need not settle. */
  lemma {:induction false} PeaksExactly(variants: seq<Variant>, groups: set<string>, mishaps: seq<Mishaps>,
      expected: bool, n: nat)
    requires n <= |variants| == |mishaps| && Wakes(variants, mishaps, n)
    ensures PeaksFine(Occupancy(expected, Snapshot(expected, {})), variants, groups, mishaps, n)
       <==> SleepsTakeEffect(variants, groups, mishaps, expected, n, true)
  {
    if n > 0 {
      PeaksExactly(variants, groups, mishaps, expected, n - 1);
      if SleepsTakeEffect(variants, groups, mishaps, expected, n - 1, true) {
        LastPeak(variants, groups, mishaps, expected, n - 1);
      }
      OneMoreSleep(variants, groups, mishaps, expected, n - 1);
    }
  }

  /** One more variant asks the one before it to settle, and the rollout engines to make room. */
  lemma OneMoreSleep(variants: seq<Variant>, groups: set<string>, mishaps: seq<Mishaps>, expected: bool, n: nat)
    requires n < |variants| == |mishaps|
    ensures SleepsTakeEffect(variants, groups, mishaps, expected, n + 1, true)
       <==> && SleepsTakeEffect(variants, groups, mishaps, expected, n, true)
            && (n > 0 ==> Settled(variants, groups, mishaps, n - 1))
            && Relinquished(variants, groups, mishaps, expected, n)
  {
    if SleepsTakeEffect(variants, groups, mishaps, expected, n + 1, true) && n > 0 {
      assert Settled(variants, groups, mishaps, n - 1);
    }
  }

  /** With the sleeps before it taking effect, variant n peaks within bounds exactly if its predecessor settled
      and the rollout engines make room. */
  lemma LastPeak(variants: seq<Variant>, groups: set<string>, mishaps: seq<Mishaps>, expected: bool, n: nat)
    requires n < |variants| == |mishaps| && Wakes(variants, mishaps, n + 1)
    requires SleepsTakeEffect(variants, groups, mishaps, expected, n, true)
    ensures var o := Before(Occupancy(expected, Snapshot(expected, {})), variants, groups, mishaps, n);
            OneAwake(Peak(o, variants[n], groups, mishaps[n]).now)
            <==> (n > 0 ==> Settled(variants, groups, mishaps, n - 1))
                 && Relinquished(variants, groups, mishaps, expected, n)
  {
    var entry := Occupancy(expected, Snapshot(expected, {}));
    var o := Before(entry, variants, groups, mishaps, n);
    FlagBefore(variants, groups, mishaps, entry, n);
    assert WakesAt(variants, mishaps, n);
    if n > 0 && !Settled(variants, groups, mishaps, n - 1) {
      assert SleepsTakeEffect(variants, groups, mishaps, expected, n - 1, false);
      OnlyTheHolder(variants, groups, mishaps, expected, n - 1);
      assert WakesAt(variants, mishaps, n - 1);
      PeakExactly(Before(entry, variants, groups, mishaps, n - 1), variants[n - 1], groups, mishaps[n - 1]);
      LingeringOverlaps(o, variants[n], groups, mishaps[n], variants[n - 1].name);
    } else {
      OnlyTheHolder(variants, groups, mishaps, expected, n);
      PeakExactly(o, variants[n], groups, mishaps[n]);
    }
  }

  /** For a whole validation with any sleeps failing, whatever else raises: at most one engine is awake at every
      moment if and only if the rollout engines go to sleep wherever they hold the device and a group is due,
      and every group goes back to sleep, except the last one when nothing wakes after it. */
  lemma OneAwakeExactlyWhen(variants: seq<Variant>, groups: set<string>, mishaps: seq<Mishaps>,
      finalWakeFails: bool, raised: bool, ran: nat)
    requires |mishaps| == |variants| && ran <= |variants| && Wakes(variants, mishaps, ran)
    ensures var expected := UsesRolloutGeneration(variants);
            var entry := Snapshot(expected, {});
            PeaksFine(Occupancy(expected, entry), variants, groups, mishaps, ran)
            && OneAwake(AtReturn(variants, groups, mishaps, finalWakeFails, entry, raised, ran))
            <==> SleepsTakeEffect(variants, groups, mishaps, expected, ran, raised || !expected || finalWakeFails)
  {
    var expected := UsesRolloutGeneration(variants);
    PeaksExactly(variants, groups, mishaps, expected, ran);
    if SleepsTakeEffect(variants, groups, mishaps, expected, ran, true) {
      AwakeAtReturn(variants, groups, mishaps, finalWakeFails, raised, ran);
    }
  }

  /** What is awake at the end, when every peak was within bounds. */
  lemma AwakeAtReturn(variants: seq<Variant>, groups: set<string>, mishaps: seq<Mishaps>, finalWakeFails: bool,
      raised: bool, ran: nat)
    requires |mishaps| == |variants| && ran <= |variants| && Wakes(variants, mishaps, ran)
    requires SleepsTakeEffect(variants, groups, mishaps, UsesRolloutGeneration(variants), ran, true)
    ensures var expected := UsesRolloutGeneration(variants);
            OneAwake(AtReturn(variants, groups, mishaps, finalWakeFails, Snapshot(expected, {}), raised, ran))
            <==> raised || !expected || finalWakeFails || ran == 0 || Settled(variants, groups, mishaps, ran - 1)
  {
    var expected := UsesRolloutGeneration(variants);
    var entry := Occupancy(expected, Snapshot(expected, {}));
    if ran > 0 {
      assert SleepsTakeEffect(variants, groups, mishaps, expected, ran - 1, false);
      OnlyTheHolder(variants, groups, mishaps, expected, ran - 1);
      assert WakesAt(variants, mishaps, ran - 1);
      PeakExactly(Before(entry, variants, groups, mishaps, ran - 1), variants[ran - 1], groups, mishaps[ran - 1]);
      FlagBefore(variants, groups, mishaps, entry, ran - 1);
      assert Relinquished(variants, groups, mishaps, expected, ran - 1);
      var o, v, m := Before(entry, variants, groups, mishaps, ran - 1), variants[ran - 1], mishaps[ran - 1];
      FewerAwake(Before(entry, variants, groups, mishaps, ran).now, Peak(o, v, groups, m).now);
    }
  }

  /** A last write stays the last one past a variant that does not write the setting. */
  lemma StillLast(variants: seq<Variant>, groups: set<string>, mishaps: seq<Mishaps>, n: nat, i: nat, j: nat)
    requires 0 < n <= |variants| == |mishaps| && LastWrite(variants, groups, mishaps, n - 1, i, j)
    requires var v, m := variants[n - 1], mishaps[n - 1];
             forall y: nat :: Leaves(v, groups, m, y) ==> v.knobs[y].knob != variants[i].knobs[j].knob
    ensures LastWrite(variants, groups, mishaps, n, i, j)
  {
  }

  /** Whatever is left of a setting is the last write of it. */
  lemma {:induction false} SomeLastWrite(variants: seq<Variant>, groups: set<string>, mishaps: seq<Mishaps>, n: nat,
      k: Knob) returns (i: nat, j: nat)
    requires n <= |variants| == |mishaps| && k in LeftOver(variants, groups, mishaps, n)
    requires forall x :: 0 <= x < n ==> InOrder(variants[x].knobs)
    ensures LastWrite(variants, groups, mishaps, n, i, j) && variants[i].knobs[j].knob == k
    ensures LeftOver(variants, groups, mishaps, n)[k] == variants[i].knobs[j].setting.value
  {
    LeftByExactly(variants[n - 1], groups, mishaps[n - 1]);
    if k in LeftBy(variants[n - 1], groups, mishaps[n - 1]) {
      i := n - 1;
      j :| Leaves(variants[n - 1], groups, mishaps[n - 1], j) && variants[n - 1].knobs[j].knob == k;
    } else {
      i, j := SomeLastWrite(variants, groups, mishaps, n - 1, k);
      StillLast(variants, groups, mishaps, n, i, j);
    }
  }

  /** Every write that is left is left over. */
  lemma {:induction false} LeftIsWritten(variants: seq<Variant>, groups: set<string>, mishaps: seq<Mishaps>, n: nat,
      i: nat, j: nat)
    requires n <= |variants| == |mishaps| && i < n && Leaves(variants[i], groups, mishaps[i], j)
    requires InOrder(variants[i].knobs)
    ensures variants[i].knobs[j].knob in LeftOver(variants, groups, mishaps, n)
    decreases n
  {
    LeftByExactly(variants[i], groups, mishaps[i]);
    if i < n - 1 {
      LeftIsWritten(variants, groups, mishaps, n - 1, i, j);
    }
  }

  /** There is only one last write of a setting. */
  lemma LastWriteWins(variants: seq<Variant>, groups: set<string>, mishaps: seq<Mishaps>, n: nat, i: nat, j: nat)
    requires n <= |variants| == |mishaps| && LastWrite(variants, groups, mishaps, n, i, j)
    requires forall x :: 0 <= x < n ==> InOrder(variants[x].knobs)
    ensures var k := variants[i].knobs[j].knob;
            k in LeftOver(variants, groups, mishaps, n)
            && variants[i].knobs[j].setting == Usable(LeftOver(variants, groups, mishaps, n)[k])
  {
    LeftIsWritten(variants, groups, mishaps, n, i, j);
    var x, y := SomeLastWrite(variants, groups, mishaps, n, variants[i].knobs[j].knob);
    assert x == i && y == j;
  }

  /** What the variants before left, request by request. */
  lemma LeftIsExact(config: Knobs, variants: seq<Variant>, groups: set<string>, mishaps: seq<Mishaps>, n: nat)
    requires n <= |variants| == |mishaps| && Complete(config)
    requires forall x :: 0 <= x < n ==> InOrder(variants[x].knobs)
    ensures DecodeIs(config, config + LeftOver(variants, groups, mishaps, n), variants, groups, mishaps, n, [])
  {
    var left := LeftOver(variants, groups, mishaps, n);
    forall k | k in left
      ensures k in config && !NeverLeft(variants, groups, mishaps, n, k)
    {
      var i, j := SomeLastWrite(variants, groups, mishaps, n, k);
      assert !variants[i].knobs[j].knob.Other?;
    }
    forall i: nat, j: nat | LastWrite(variants, groups, mishaps, n, i, j)
      ensures variants[i].knobs[j].knob in left
      ensures variants[i].knobs[j].setting == Usable(left[variants[i].knobs[j].knob])
    {
      LastWriteWins(variants, groups, mishaps, n, i, j);
    }
  }

  /** With settings asked for on top. */
  lemma AskedOnTop(config: Knobs, decode: Knobs, variants: seq<Variant>, groups: set<string>, mishaps: seq<Mishaps>,
      n: nat, asked: Overrides)
    requires n <= |variants| == |mishaps| && Complete(config) && InOrder(asked) && !Raises(asked, ToTheEnd)
    requires DecodeIs(config, decode, variants, groups, mishaps, n, [])
    ensures DecodeIs(config, decode + Written(asked, ToTheEnd), variants, groups, mishaps, n, asked)
  {
    WrittenExactly(asked, ToTheEnd);
    forall i: nat | i < |asked|
      ensures Handles(asked, ToTheEnd, i)
    {
    }
    forall k | k in Written(asked, ToTheEnd)
      ensures k in config && Asks(asked, k)
    {
      var i: nat :| Handles(asked, ToTheEnd, i) && asked[i].knob == k;
      assert !asked[i].knob.Other?;
    }
  }

  lemma DecodeOfPass(p: Pass, variants: seq<Variant>, groups: set<string>, mishaps: seq<Mishaps>, i: nat,
      entry: Occupancy, config: Knobs)
    requires i < |variants| == |mishaps| && variants[i].name !in groups && Complete(config)
    requires forall x :: 0 <= x < |variants| ==> InOrder(variants[x].knobs)
    requires PassIs(p, variants, groups, mishaps, i, entry, config)
    ensures DecodeIs(config, p.decode, variants, groups, mishaps, i, AskedBy(variants[i], groups, mishaps[i]))
  {
    LeftIsExact(config, variants, groups, mishaps, i);
    AskedOnTop(config, config + LeftOver(variants, groups, mishaps, i), variants, groups, mishaps, i,
      AskedBy(variants[i], groups, mishaps[i]));
  }

  /** While the sleeps that matter take effect, every variant peaks with its own engine awake and no other. */
  lemma OwnEngineIsAwake(variants: seq<Variant>, groups: set<string>, mishaps: seq<Mishaps>, expected: bool, n: nat,
      i: nat)
    requires i < n <= |variants| == |mishaps| && Wakes(variants, mishaps, n)
    requires SleepsTakeEffect(variants, groups, mishaps, expected, n, true)
    ensures Peak(Before(Occupancy(expected, Snapshot(expected, {})), variants, groups, mishaps, i), variants[i], groups,
              mishaps[i]).now == OwnEngine(variants[i], groups)
  {
    assert SleepsTakeEffect(variants, groups, mishaps, expected, i, false);
    OnlyTheHolder(variants, groups, mishaps, expected, i);
    FlagBefore(variants, groups, mishaps, Occupancy(expected, Snapshot(expected, {})), i);
    assert Relinquished(variants, groups, mishaps, expected, i) && WakesAt(variants, mishaps, i);
  }

  /** The decode a normal return leaves is the one at entry exactly if every setting that some raising
      reconfiguration left written was last written with its old value. */
  lemma RestoredExactlyWhen(decode: Knobs, variants: seq<Variant>, groups: set<string>, mishaps: seq<Mishaps>, n: nat)
    requires n <= |variants| == |mishaps|
    requires forall x :: 0 <= x < n ==> InOrder(variants[x].knobs)
    ensures decode + LeftOver(variants, groups, mishaps, n) == decode
       <==> forall i: nat, j: nat :: LastWrite(variants, groups, mishaps, n, i, j) ==>
              variants[i].knobs[j].knob in decode
              && variants[i].knobs[j].setting == Usable(decode[variants[i].knobs[j].knob])
  {
    var left := LeftOver(variants, groups, mishaps, n);
    SameExactlyWhen(decode, left);
    forall i: nat, j: nat | LastWrite(variants, groups, mishaps, n, i, j)
      ensures variants[i].knobs[j].knob in left
      ensures variants[i].knobs[j].setting == Usable(left[variants[i].knobs[j].knob])
    {
      LastWriteWins(variants, groups, mishaps, n, i, j);
    }
    if Harmless(decode, variants, groups, mishaps, n) {
      forall k | k in left
        ensures k in decode && decode[k] == left[k]
      {
        var i, j := SomeLastWrite(variants, groups, mishaps, n, k);
      }
    }
  }

  // ---------------------------------------------------------------- inputs at which the promises fail

  function Quiet(): Mishaps
  {
    Mishaps(Prepared, Supported(ToTheEnd), false, ToTheEnd, false, false, false)
  }

  /** The leftmost policy with a confidence threshold of zero, whose logarithm raises after the policy was
      written. */
  function ThresholdZero(): Variant
  {
    Variant("leftmost", [Request(SelectionPolicy, Usable(1)), Request(ConfidenceThreshold, Unusable)], false)
  }

  /** A secondary variant with that request: validation returns normally and the rollout engines stay on the
      validation policy. */
  method LeftOnValidationPolicy(config: Knobs) returns (d: Device, raised: bool)
    requires Complete(config) && config[SelectionPolicy] == 0
    ensures !raised && Complete(d.engine.decode) && d.engine.decode[SelectionPolicy] == 1
    ensures d.engine.decode != config
  {
    d := new Device(true, config);
    var variants := [Variant("primary", [], false), ThresholdZero()];
    assert variants[0].name !in {} && UsesRolloutGeneration(variants);
    var mishaps := [Quiet(), Quiet()];
    assert AllOne(d.history);
    assert !FailsVariant(variants[0], {}, true, mishaps[0]) && !FailsVariant(variants[1], {}, false, mishaps[1]);
    ThresholdZeroLeavesPolicy();
    var ran: nat;
    raised, ran := d.RunVariants(variants, {}, mishaps, false);
    LastWriteStays(config, d.engine.decode, variants, {}, mishaps, 2, 1, 0);
  }

  lemma LastWriteStays(entry: Knobs, decode: Knobs, variants: seq<Variant>, groups: set<string>, mishaps: seq<Mishaps>,
      n: nat, i: nat, j: nat)
    requires n <= |variants| == |mishaps| && DecodeIs(entry, decode, variants, groups, mishaps, n, [])
    requires LastWrite(variants, groups, mishaps, n, i, j)
    ensures var r := variants[i].knobs[j]; r.knob in decode && r.setting == Usable(decode[r.knob])
  {
  }

  lemma ThresholdZeroLeavesPolicy()
    ensures InOrder(ThresholdZero().knobs) && Raises(ThresholdZero().knobs, ToTheEnd)
    ensures var variants := [Variant("primary", [], false), ThresholdZero()];
            LastWrite(variants, {}, [Quiet(), Quiet()], 2, 1, 0)
  {
    var over := ThresholdZero().knobs;
    assert over[1].setting.Unusable?;
    assert Leaves(ThresholdZero(), {}, Quiet(), 0);
  }

  /** A sleep that answers False is not noticed: the group wakes beside the rollout engines. */
  method BothEnginesAwake(config: Knobs) returns (d: Device, raised: bool)
    requires Complete(config)
    ensures !raised && !d.NeverTwoAwake()
  {
    d := new Device(true, config);
    var variants := [Variant("rollout", [], false), Variant("group", [], true)];
    var groups := {"group"};
    var mishaps := [Quiet(), Quiet().(sleepFails := true)];
    assert variants[0].name != "group" by {
      assert |variants[0].name| != |"group"|;
    }
    assert !variants[0].engineLevel && UsesRolloutGeneration(variants);
    assert AllOne(d.history);
    assert !FailsVariant(variants[0], groups, true, mishaps[0]) &&
        !FailsVariant(variants[1], groups, false, mishaps[1]);
    ghost var entry := Occupancy(true, d.Now());
    assert Before(entry, variants, groups, mishaps, 0) == entry;
    assert Before(entry, variants, groups, mishaps, 1) == entry;
    FailedSleepOverlaps(entry, variants[1], groups, mishaps[1]);
    assert !PeaksFine(entry, variants, groups, mishaps, 2);
    var ran: nat;
    raised, ran := d.RunVariants(variants, groups, mishaps, false);
  }
}
