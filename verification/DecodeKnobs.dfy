/** The live decode settings of a generation engine and the call that changes them
    (`reconfigure_dllm`, nemo_rl/models/generation/vllm/vllm_backend.py, lines 138-143 and 191-239).

    Settings are written one after the other.  A value that cannot be converted raises when its turn
    comes, and a call can break off at any point; either way what was written before stays.
 */
module DecodeKnobs {

  datatype Knob = SelectionPolicy | ConfidenceThreshold | Temperature | MaxDenoisingSteps | Other(name: string)

  type Knobs = map<Knob, int>

  /** A requested value; one that its conversion rejects is `Unusable`. */
  datatype Setting = Usable(value: int) | Unusable

  datatype Request = Request(knob: Knob, setting: Setting)

  /** What a call asks for, in the order in which the engine writes it. */
  type Overrides = seq<Request>

  /** How far a call gets: to the end, or only through the first `handled` requests. */
  datatype Reach = ToTheEnd | BreaksAfter(handled: nat)

  /** Position of a setting in the engine's code; names it does not know come last. */
  function Place(k: Knob): nat
  {
    match k
    case SelectionPolicy => 0
    case ConfidenceThreshold => 1
    case Temperature => 2
    case MaxDenoisingSteps => 3
    case Other(_) => 4
  }

  /** The requests of one dictionary. */
  ghost predicate InOrder(over: Overrides)
  {
    && (forall i, j :: 0 <= i < j < |over| ==> over[i].knob != over[j].knob)
    && (forall i, j :: 0 <= i < j < |over| ==> Place(over[i].knob) <= Place(over[j].knob))
  }

  predicate Known(over: Overrides)
  {
    forall i :: 0 <= i < |over| ==> !over[i].knob.Other?
  }

  /** Index of the first unusable value, or the number of requests. */
  function FirstUnusable(over: Overrides): (n: nat)
    ensures n <= |over|
    ensures forall i :: 0 <= i < n ==> over[i].setting.Usable?
    ensures n < |over| ==> over[n].setting.Unusable?
  {
    if over == [] || over[0].setting.Unusable? then 0 else 1 + FirstUnusable(over[1..])
  }

  /** What the first n requests write. */
  function Values(over: Overrides, n: nat): Knobs
    requires n <= FirstUnusable(over)
  {
    if n == 0 then map[] else Values(over, n - 1)[over[n - 1].knob := over[n - 1].setting.value]
  }

  /** Requests a call gets through. */
  function Handled(over: Overrides, reach: Reach): (n: nat)
    ensures n <= FirstUnusable(over)
  {
    if !Known(over) then 0
    else if reach.BreaksAfter? && reach.handled < FirstUnusable(over) then reach.handled
    else FirstUnusable(over)
  }

  /** The call raises: it breaks off, it asks for a name that the engine does not know, or for a value that its
      conversion rejects. */
  predicate Raises(over: Overrides, reach: Reach)
  {
    reach.BreaksAfter? || exists i :: 0 <= i < |over| && (over[i].knob.Other? || over[i].setting.Unusable?)
  }

  /** The call gets through request i: all names are known, the values up to it are usable, and it does not break
      off before. */
  predicate Handles(over: Overrides, reach: Reach, i: nat)
  {
    && i < |over| && (forall j :: 0 <= j < |over| ==> !over[j].knob.Other?)
    && (forall j :: 0 <= j <= i ==> over[j].setting.Usable?) && (reach.BreaksAfter? ==> i < reach.handled)
  }

  lemma RaisesExactly(over: Overrides, reach: Reach)
    ensures Raises(over, reach) <==> !Known(over) || reach.BreaksAfter? || FirstUnusable(over) < |over|
  {
    if FirstUnusable(over) < |over| {
      assert over[FirstUnusable(over)].setting.Unusable?;
    }
  }

  /** What a call leaves written. */
  function Written(over: Overrides, reach: Reach): Knobs
  {
    Values(over, Handled(over, reach))
  }

  /** The settings of a sampler. */
  ghost predicate Complete(decode: Knobs)
  {
    SelectionPolicy in decode && ConfidenceThreshold in decode && Temperature in decode && MaxDenoisingSteps in decode
  }

  /** Every request that the call gets through has its value, and every other setting is as before. */
  ghost predicate Rewrites(before: Knobs, after: Knobs, over: Overrides, reach: Reach)
  {
    && after.Keys == before.Keys
    && (forall i: nat :: Handles(over, reach, i) ==>
          over[i].knob in after && after[over[i].knob] == over[i].setting.value)
    && (forall k :: k in before && (forall i: nat :: Handles(over, reach, i) ==> over[i].knob != k) ==>
          after[k] == before[k])
  }

  lemma HandledExactly(over: Overrides, reach: Reach, i: nat)
    ensures i < Handled(over, reach) <==> Handles(over, reach, i)
  {
  }

  /** The first n requests write their own values and nothing else. */
  lemma {:induction false} ValuesExactly(over: Overrides, n: nat)
    requires InOrder(over) && n <= FirstUnusable(over)
    ensures forall i :: 0 <= i < n ==> over[i].knob in Values(over, n)
    ensures forall i :: 0 <= i < n ==> Values(over, n)[over[i].knob] == over[i].setting.value
    ensures forall k :: k in Values(over, n) ==> exists i :: 0 <= i < n && over[i].knob == k
  {
    if n > 0 {
      ValuesExactly(over, n - 1);
    }
  }

  /** What a call leaves written: the values of the requests it gets through, each under its own name. */
  lemma WrittenExactly(over: Overrides, reach: Reach)
    requires InOrder(over)
    ensures forall i: nat :: Handles(over, reach, i) ==>
              over[i].knob in Written(over, reach) && Written(over, reach)[over[i].knob] == over[i].setting.value
    ensures forall k :: k in Written(over, reach) ==> exists i: nat :: Handles(over, reach, i) && over[i].knob == k
  {
    var n := Handled(over, reach);
    ValuesExactly(over, n);
    forall i: nat | Handles(over, reach, i)
      ensures over[i].knob in Written(over, reach) && Written(over, reach)[over[i].knob] == over[i].setting.value
    {
      HandledExactly(over, reach, i);
    }
    forall k | k in Written(over, reach)
      ensures exists i: nat :: Handles(over, reach, i) && over[i].knob == k
    {
      var i :| 0 <= i < n && over[i].knob == k;
      HandledExactly(over, reach, i);
    }
  }

  lemma WrittenRewrites(decode: Knobs, over: Overrides, reach: Reach)
    requires Complete(decode) && InOrder(over)
    ensures Rewrites(decode, decode + Written(over, reach), over, reach)
  {
    WrittenExactly(over, reach);
    var after := decode + Written(over, reach);
    forall k | k in after
      ensures k in decode
    {
      if k in Written(over, reach) {
        var i: nat :| Handles(over, reach, i) && over[i].knob == k;
        assert !over[i].knob.Other?;
      }
    }
  }

  /** A setting whose turn has not come is not written. */
  lemma {:induction false} NotYetWritten(over: Overrides, n: nat, i: nat)
    requires InOrder(over) && n <= FirstUnusable(over) && n <= i < |over|
    ensures over[i].knob !in Values(over, n)
  {
    if n > 0 {
      NotYetWritten(over, n - 1, i);
    }
  }

  /** The previous value of each of the first n requests. */
  ghost predicate Reported(decode: Knobs, over: Overrides, previous: Overrides, n: nat)
  {
    |previous| == n <= |over| && forall i :: 0 <= i < n ==>
      previous[i].knob == over[i].knob && over[i].knob in decode && previous[i].setting == Usable(decode[over[i].knob])
  }

  lemma {:induction false} AllUsable(over: Overrides)
    requires forall i :: 0 <= i < |over| ==> over[i].setting.Usable?
    ensures FirstUnusable(over) == |over|
  {
    if over != [] {
      AllUsable(over[1..]);
    }
  }

  /** Writing reported values back over what was written restores the settings they stand for. */
  lemma {:induction false} ValuesReported(decode: Knobs, over: Overrides, previous: Overrides, n: nat)
    requires Reported(decode, over, previous, |over|) && n <= |over|
    requires FirstUnusable(over) == |over| == FirstUnusable(previous)
    ensures Values(previous, n).Keys == Values(over, n).Keys
    ensures decode + Values(previous, n) == decode
  {
    if n > 0 {
      ValuesReported(decode, over, previous, n - 1);
      PlusUpdate(decode, Values(previous, n - 1), over[n - 1].knob, decode[over[n - 1].knob]);
    }
  }

  lemma PlusUpdate(decode: Knobs, w: Knobs, k: Knob, v: int)
    ensures (decode + w)[k := v] == decode + w[k := v]
  {
  }

  lemma Overwrite(decode: Knobs, w: Knobs, back: Knobs)
    requires w.Keys == back.Keys && decode + back == decode
    ensures decode + w + back == decode
  {
    assert decode + w + back == decode + back;
  }

  /** Writing back the previous values undoes a call that wrote everything it was asked to. */
  lemma RestoreUndoes(decode: Knobs, over: Overrides, previous: Overrides)
    requires InOrder(over) && !Raises(over, ToTheEnd) && Reported(decode, over, previous, |over|)
    ensures InOrder(previous) && !Raises(previous, ToTheEnd)
    ensures decode + Written(over, ToTheEnd) + Written(previous, ToTheEnd) == decode
  {
    AllUsable(previous);
    ValuesReported(decode, over, previous, |over|);
    Overwrite(decode, Values(over, |over|), Values(previous, |over|));
  }

  /** The settings are as they were exactly if everything left written has its old value. */
  lemma SameExactlyWhen(decode: Knobs, left: Knobs)
    ensures decode + left == decode <==> forall k :: k in left ==> k in decode && decode[k] == left[k]
  {
    if decode + left == decode {
      forall k | k in left
        ensures k in decode && decode[k] == left[k]
      {
        assert (decode + left)[k] == left[k];
      }
    }
  }

  class Engine {
    var decode: Knobs

    constructor (config: Knobs)
      ensures decode == config
    {
      decode := config;
    }

    /** `reconfigure_dllm` on an engine that supports it: check the names, then write in order and collect
        the previous values. */
    method Reconfigure(over: Overrides, reach: Reach) returns (raised: bool, previous: Overrides)
      requires Complete(decode) && InOrder(over)
      modifies this
      ensures Complete(decode) && decode == old(decode) + Written(over, reach)
      ensures Rewrites(old(decode), decode, over, reach)
      ensures raised <==> Raises(over, reach)
      ensures !raised ==> Reported(old(decode), over, previous, |over|)
    {
      WrittenRewrites(decode, over, reach);
      RaisesExactly(over, reach);
      if Known(over) {
        raised, previous := Write(over, reach);
      } else {
        assert Written(over, reach) == map[];
        raised, previous := true, [];
      }
    }

    /** The writes, up to the first that fails. */
    method Write(over: Overrides, reach: Reach) returns (raised: bool, previous: Overrides)
      requires Complete(decode) && InOrder(over) && Known(over)
      modifies this
      ensures Complete(decode) && decode == old(decode) + Values(over, Handled(over, reach))
      ensures raised <==> reach.BreaksAfter? || FirstUnusable(over) < |over|
      ensures !raised ==> Reported(old(decode), over, previous, |over|)
    {
      previous := [];
      ghost var start := decode;
      for i := 0 to |over|
        invariant i <= FirstUnusable(over) && decode == start + Values(over, i)
        invariant reach.BreaksAfter? ==> i <= reach.handled
        invariant Reported(start, over, previous, i)
      {
        if reach.BreaksAfter? && i == reach.handled {
          return true, [];
        }
        var r := over[i];
        if r.setting.Unusable? {
          return true, [];
        }
        NotYetWritten(over, i, i);
        PlusUpdate(start, Values(over, i), r.knob, r.setting.value);
        previous := previous + [Request(r.knob, Usable(decode[r.knob]))];
        decode := decode[r.knob := r.setting.value];
      }
      raised := reach.BreaksAfter?;
    }
  }
}
