/** Whole runs of the replay buffer, over the specification its class refines: nothing pushed is lost
    or duplicated, each version receives its records in the order they were pushed, and the
    last-generated target is a running maximum.  `clear` is not among the operations.
 */
module BufferHistory {
  import opened Wrappers

  import opened ReplayBuffers

  datatype Op<+T> = Push(record: Record<T>) | Take(n: nat, w: int, maxAge: int) | Report(message: string)

  datatype Buffer<+T> = Buffer(records: seq<Record<T>>, last: int, capacity: nat, error: Option<string>)

  /** Records a step adds. */
  function Added<T>(b: Buffer<T>, op: Op<T>): seq<Record<T>>
  {
    if op.Push? && |b.records| < b.capacity then [op.record] else []
  }

  /** Records a step hands to the trainer. */
  ghost function Taken<T>(b: Buffer<T>, op: Op<T>): seq<Record<T>>
  {
    if op.Take? && Sampled(b.records, b.error, op.n, op.w, op.maxAge).Batch?
    then Matching(b.records, op.w)[..op.n] else []
  }

  ghost function Apply<T>(b: Buffer<T>, op: Op<T>): Buffer<T>
  {
    match op
    case Push(r) =>
      if |b.records| >= b.capacity then b
      else b.(records := b.records + [r], last := if r.target > b.last then r.target else b.last)
    case Take(n, w, maxAge) =>
      if Sampled(b.records, b.error, n, w, maxAge).Batch? then b.(records := Kept(b.records, w, n)) else b
    case Report(m) => b.(error := Some(m))
  }

  ghost function Final<T>(b: Buffer<T>, ops: seq<Op<T>>): Buffer<T>
    decreases |ops|
  {
    if ops == [] then b else Final(Apply(b, ops[0]), ops[1..])
  }

  // ---------------------------------------------------------------- the class as runs of values

  ghost function View<T>(buffer: ReplayBuffer<T>): Buffer<T>
    requires buffer.Valid()
    reads buffer
  {
    Buffer(buffer.Contents(), buffer.lastTarget, buffer.maxSize, buffer.workerError)
  }

  // ---------------------------------------------------------------- what a run keeps

  ghost function AllAdded<T>(b: Buffer<T>, ops: seq<Op<T>>): seq<Record<T>>
    decreases |ops|
  {
    if ops == [] then [] else Added(b, ops[0]) + AllAdded(Apply(b, ops[0]), ops[1..])
  }

  ghost function AllTaken<T>(b: Buffer<T>, ops: seq<Op<T>>): seq<Record<T>>
    decreases |ops|
  {
    if ops == [] then [] else Taken(b, ops[0]) + AllTaken(Apply(b, ops[0]), ops[1..])
  }

  /** What the trainer received while at version w, in order. */
  ghost function TakenAt<T>(b: Buffer<T>, ops: seq<Op<T>>, w: int): seq<Record<T>>
    decreases |ops|
  {
    if ops == [] then []
    else (if ops[0].Take? && ops[0].w == w then Taken(b, ops[0]) else []) + TakenAt(Apply(b, ops[0]), ops[1..], w)
  }

  function Own<T>(r: Record<T>, w: int): seq<Record<T>>
  {
    if Matches(r, w) then [r] else []
  }

  lemma MatchingFirst<T>(r: Record<T>, rest: seq<Record<T>>, w: int)
    ensures Matching([r] + rest, w) == Own(r, w) + Matching(rest, w)
  {
    assert ([r] + rest)[1..] == rest;
  }

  lemma {:induction false} MatchingOfConcat<T>(a: seq<Record<T>>, b: seq<Record<T>>, w: int)
    ensures Matching(a + b, w) == Matching(a, w) + Matching(b, w)
  {
    if a == [] {
      assert a + b == b;
    } else {
      var rest := a[1..];
      MatchingOfConcat(rest, b, w);
      MatchingFirst(a[0], rest, w);
      MatchingFirst(a[0], rest + b, w);
      assert a == [a[0]] + rest && a + b == [a[0]] + (rest + b);
      Reassociate(Own(a[0], w), Matching(rest, w), Matching(b, w));
    }
  }

  lemma {:induction false} MatchingOfKept<T>(rs: seq<Record<T>>, w: int, n: nat, v: int)
    requires n <= |Matching(rs, w)|
    ensures Matching(Kept(rs, w, n), v) == if v == w then Matching(rs, w)[n..] else Matching(rs, v)
  {
    if rs != [] {
      var rest := rs[1..];
      if n > 0 && Matches(rs[0], w) {
        MatchingOfKept(rest, w, n - 1, v);
      } else {
        MatchingOfKept(rest, w, n, v);
        MatchingFirst(rs[0], Kept(rest, w, n), v);
      }
    }
  }

  ghost function Count<T>(rs: seq<Record<T>>, r: Record<T>): nat
  {
    if rs == [] then 0 else (if rs[0] == r then 1 else 0) + Count(rs[1..], r)
  }

  lemma {:induction false} CountOfConcat<T>(a: seq<Record<T>>, b: seq<Record<T>>, r: Record<T>)
    ensures Count(a + b, r) == Count(a, r) + Count(b, r)
  {
    if a == [] {
      assert a + b == b;
    } else {
      CountOfConcat(a[1..], b, r);
      assert (a + b)[1..] == a[1..] + b;
    }
  }

  lemma {:induction false} KeptAndTaken<T>(rs: seq<Record<T>>, w: int, n: nat, r: Record<T>)
    requires n <= |Matching(rs, w)|
    ensures Count(rs, r) == Count(Matching(rs, w)[..n], r) + Count(Kept(rs, w, n), r)
    ensures |Kept(rs, w, n)| <= |rs|
  {
    if rs != [] {
      var rest, kept, taken := rs[1..], Kept(rs, w, n), Matching(rs, w)[..n];
      if n > 0 && Matches(rs[0], w) {
        KeptAndTaken(rest, w, n - 1, r);
        assert taken[1..] == Matching(rest, w)[..n - 1];
      } else {
        KeptAndTaken(rest, w, n, r);
        assert taken == Matching(rest, w)[..n];
        assert kept[1..] == Kept(rest, w, n);
      }
    }
  }

  /** Conservation, record by record: as often as a record was in the buffer or was added, so often
      it was handed out or is still there; and the capacity is respected. */
  lemma {:induction false} RunConserves<T>(b: Buffer<T>, ops: seq<Op<T>>, r: Record<T>)
    ensures Count(b.records, r) + Count(AllAdded(b, ops), r)
              == Count(AllTaken(b, ops), r) + Count(Final(b, ops).records, r)
    ensures |b.records| <= b.capacity ==> |Final(b, ops).records| <= b.capacity
    decreases |ops|
  {
    if ops != [] {
      var next := Apply(b, ops[0]);
      StepConserves(b, ops[0], r);
      RunConserves(next, ops[1..], r);
      CountOfConcat(Added(b, ops[0]), AllAdded(next, ops[1..]), r);
      CountOfConcat(Taken(b, ops[0]), AllTaken(next, ops[1..]), r);
    }
  }

  lemma StepConserves<T>(b: Buffer<T>, op: Op<T>, r: Record<T>)
    ensures Count(b.records, r) + Count(Added(b, op), r) == Count(Taken(b, op), r) + Count(Apply(b, op).records, r)
    ensures |b.records| <= b.capacity ==> |Apply(b, op).records| <= b.capacity
    ensures Apply(b, op).capacity == b.capacity
  {
    match op {
      case Push(x) =>
        CountOfConcat(b.records, [x], r);
      case Take(n, w, maxAge) =>
        if Sampled(b.records, b.error, n, w, maxAge).Batch? {
          KeptAndTaken(b.records, w, n, r);
        }
      case Report(m) =>
    }
  }

  /** First in, first out per version: what was usable at w, in push order, is what the trainer
      received at w followed by what is still waiting for w. */
  lemma {:induction false} RunIsFifoPerVersion<T>(b: Buffer<T>, ops: seq<Op<T>>, w: int)
    ensures Matching(b.records, w) + Matching(AllAdded(b, ops), w)
              == TakenAt(b, ops, w) + Matching(Final(b, ops).records, w)
    decreases |ops|
  {
    if ops != [] {
      var next := Apply(b, ops[0]);
      RunIsFifoPerVersion(next, ops[1..], w);
      MatchingOfConcat(Added(b, ops[0]), AllAdded(next, ops[1..]), w);
      StepIsFifo(b, ops[0], w);
      Chain(Matching(b.records, w), Matching(Added(b, ops[0]), w), Matching(AllAdded(next, ops[1..]), w),
            if ops[0].Take? && ops[0].w == w then Taken(b, ops[0]) else [], Matching(next.records, w),
            TakenAt(next, ops[1..], w), Matching(Final(b, ops).records, w));
    }
  }

  lemma Chain<T>(had: seq<T>, got: seq<T>, later: seq<T>, here: seq<T>, has: seq<T>, then_: seq<T>, left: seq<T>)
    requires had + got == here + has && has + later == then_ + left
    ensures had + (got + later) == (here + then_) + left
  {
    assert had + (got + later) == (had + got) + later == here + (has + later);
  }

  lemma StepIsFifo<T>(b: Buffer<T>, op: Op<T>, w: int)
    ensures Matching(b.records, w) + Matching(Added(b, op), w)
         == (if op.Take? && op.w == w then Taken(b, op) else []) + Matching(Apply(b, op).records, w)
  {
    match op {
      case Push(r) =>
        if |b.records| < b.capacity {
          MatchingOfConcat(b.records, [r], w);
        }
      case Take(n, v, maxAge) =>
        if Sampled(b.records, b.error, n, v, maxAge).Batch? {
          MatchingOfKept(b.records, v, n, w);
          assert Matching(b.records, v) == Matching(b.records, v)[..n] + Matching(b.records, v)[n..];
        }
      case Report(m) =>
    }
  }

  /** The last-generated target is the maximum of its first value and of every target pushed. */
  lemma {:induction false} LastIsRunningMaximum<T>(b: Buffer<T>, ops: seq<Op<T>>)
    ensures Final(b, ops).last >= b.last
    ensures forall i :: 0 <= i < |AllAdded(b, ops)| ==> AllAdded(b, ops)[i].target <= Final(b, ops).last
    ensures || Final(b, ops).last == b.last
            || exists i :: 0 <= i < |AllAdded(b, ops)| && AllAdded(b, ops)[i].target == Final(b, ops).last
    decreases |ops|
  {
    if ops != [] {
      var next := Apply(b, ops[0]);
      var rest, all, here := AllAdded(next, ops[1..]), AllAdded(b, ops), Added(b, ops[0]);
      LastIsRunningMaximum(next, ops[1..]);
      assert forall i :: 0 <= i < |rest| ==> all[|here| + i] == rest[i];
      assert forall i :: 0 <= i < |all| ==> all[i] == if i < |here| then here[i] else rest[i - |here|];
      if Final(b, ops).last != b.last && next.last == Final(b, ops).last {
        assert here != [] && all[0].target == next.last;
      }
    }
  }

  // ---------------------------------------------------------------- calls and what they answer

  datatype Answer<+T> = Accepted | Full | Given(outcome: Outcome<T>) | Noted

  /** The items waiting for version w, in the order of the records. */
  ghost function WaitingFor<T>(rs: seq<Record<T>>, w: int): seq<T>
  {
    if rs == [] then []
    else (if rs[0].target == w && rs[0].version <= w then [rs[0].item] else []) + WaitingFor(rs[1..], w)
  }

  /** The items that accepted pushes brought for version w. */
  ghost function PushedFor<T>(ops: seq<Op<T>>, answers: seq<Answer<T>>, w: int): seq<T>
    requires |answers| == |ops|
  {
    if ops == [] then []
    else
      var n := |ops| - 1;
      PushedFor(ops[..n], answers[..n], w) + PushedBy(ops[n], answers[n], w)
  }

  ghost function PushedBy<T>(op: Op<T>, answer: Answer<T>, w: int): seq<T>
  {
    if op.Push? && answer.Accepted? && op.record.target == w && op.record.version <= w then [op.record.item] else []
  }

  /** The batches handed out at version w, one after the other. */
  ghost function ReceivedAt<T>(ops: seq<Op<T>>, answers: seq<Answer<T>>, w: int): seq<T>
    requires |answers| == |ops|
  {
    if ops == [] then []
    else
      var n := |ops| - 1;
      ReceivedAt(ops[..n], answers[..n], w) + ReceivedBy(ops[n], answers[n], w)
  }

  ghost function ReceivedBy<T>(op: Op<T>, answer: Answer<T>, w: int): seq<T>
  {
    if op.Take? && op.w == w && answer.Given? && answer.outcome.Batch? then answer.outcome.items else []
  }

  /** What a call answers. */
  ghost predicate Answers<T>(b: Buffer<T>, op: Op<T>, answer: Answer<T>)
  {
    match op
    case Push(_) => answer == if |b.records| < b.capacity then Accepted else Full
    case Take(n, w, maxAge) => answer == Given(Sampled(b.records, b.error, n, w, maxAge))
    case Report(_) => answer == Noted
  }

  lemma {:induction false} WaitingIsMatching<T>(rs: seq<Record<T>>, w: int)
    ensures WaitingFor(rs, w) == Items(Matching(rs, w))
  {
    if rs != [] {
      WaitingIsMatching(rs[1..], w);
      assert Matching(rs, w) == Own(rs[0], w) + Matching(rs[1..], w);
      ItemsOfConcat(Own(rs[0], w), Matching(rs[1..], w));
    }
  }

  lemma ItemsOfConcat<T>(a: seq<Record<T>>, b: seq<Record<T>>)
    ensures Items(a + b) == Items(a) + Items(b)
  {
  }

  /** One call: what was waiting and what came in is what was handed out and what is waiting now. */
  lemma StepAnswersFifo<T>(b: Buffer<T>, op: Op<T>, answer: Answer<T>, w: int)
    requires Answers(b, op, answer)
    ensures WaitingFor(b.records, w) + PushedBy(op, answer, w)
         == ReceivedBy(op, answer, w) + WaitingFor(Apply(b, op).records, w)
  {
    var taken := if op.Take? && op.w == w then Taken(b, op) else [];
    StepIsFifo(b, op, w);
    WaitingIsMatching(b.records, w);
    WaitingIsMatching(Apply(b, op).records, w);
    ItemsOfConcat(Matching(b.records, w), Matching(Added(b, op), w));
    ItemsOfConcat(taken, Matching(Apply(b, op).records, w));
    assert Items(Matching(Added(b, op), w)) == PushedBy(op, answer, w) by {
      if op.Push? {
        assert Matching([op.record], w) == Own(op.record, w) + Matching([op.record][1..], w);
      }
    }
    assert Items(taken) == ReceivedBy(op, answer, w);
  }

  lemma OneMoreAnswer<T>(ops: seq<Op<T>>, answers: seq<Answer<T>>, i: nat, answer: Answer<T>, w: int)
    requires i < |ops| && |answers| == i
    ensures PushedFor(ops[..i + 1], answers + [answer], w)
         == PushedFor(ops[..i], answers, w) + PushedBy(ops[i], answer, w)
    ensures ReceivedAt(ops[..i + 1], answers + [answer], w)
         == ReceivedAt(ops[..i], answers, w) + ReceivedBy(ops[i], answer, w)
  {
    assert ops[..i + 1][..i] == ops[..i] && (answers + [answer])[..i] == answers;
  }

  /** One operation on the buffer object is one step of the run. */
  method Perform<T>(buffer: ReplayBuffer<T>, op: Op<T>) returns (answer: Answer<T>)
    requires buffer.Valid()
    modifies buffer
    ensures buffer.Valid() && View(buffer) == Apply(old(View(buffer)), op)
    ensures Answers(old(View(buffer)), op, answer)
  {
    match op {
      case Push(r) =>
        var success := buffer.Push(r.item, r.version, r.target);
        answer := if success then Accepted else Full;
      case Take(n, w, maxAge) =>
        var outcome := buffer.Sample(n, w, maxAge);
        answer := Given(outcome);
      case Report(m) =>
        buffer.ReportWorkerError(m);
        answer := Noted;
    }
  }

  /** First in, first out: for every version, the items waiting at the start and those of the accepted pushes are
      the items of the batches handed out at that version, in order, and then the items waiting at the end. */
  ghost predicate FifoPerVersion<T>(before: seq<Record<T>>, after: seq<Record<T>>, ops: seq<Op<T>>,
      answers: seq<Answer<T>>)
    requires |answers| == |ops|
  {
    forall w :: WaitingFor(before, w) + PushedFor(ops, answers, w) == ReceivedAt(ops, answers, w) + WaitingFor(after, w)
  }

  lemma FifoOneMore<T>(before: seq<Record<T>>, b: Buffer<T>, ops: seq<Op<T>>, answers: seq<Answer<T>>, i: nat,
      answer: Answer<T>)
    requires i < |ops| && |answers| == i && Answers(b, ops[i], answer)
    requires FifoPerVersion(before, b.records, ops[..i], answers)
    ensures FifoPerVersion(before, Apply(b, ops[i]).records, ops[..i + 1], answers + [answer])
  {
    forall w
      ensures WaitingFor(before, w) + PushedFor(ops[..i + 1], answers + [answer], w)
           == ReceivedAt(ops[..i + 1], answers + [answer], w) + WaitingFor(Apply(b, ops[i]).records, w)
    {
      StepAnswersFifo(b, ops[i], answer, w);
      OneMoreAnswer(ops, answers, i, answer, w);
      Chain(WaitingFor(before, w), PushedFor(ops[..i], answers, w), PushedBy(ops[i], answer, w),
            ReceivedAt(ops[..i], answers, w), WaitingFor(b.records, w), ReceivedBy(ops[i], answer, w),
            WaitingFor(Apply(b, ops[i]).records, w));
    }
  }

  /** Any sequence of calls leaves the object where the run leaves the value, and what the calls answered is first
      in, first out for every version. */
  method PerformAll<T>(buffer: ReplayBuffer<T>, ops: seq<Op<T>>) returns (answers: seq<Answer<T>>)
    requires buffer.Valid()
    modifies buffer
    ensures buffer.Valid() && View(buffer) == Final(old(View(buffer)), ops)
    ensures |answers| == |ops| && FifoPerVersion(old(buffer.Contents()), buffer.Contents(), ops, answers)
  {
    ghost var start := View(buffer);
    answers := [];
    for i := 0 to |ops|
      invariant buffer.Valid() && Final(View(buffer), ops[i..]) == Final(start, ops)
      invariant |answers| == i && FifoPerVersion(start.records, buffer.Contents(), ops[..i], answers)
    {
      assert ops[i..][1..] == ops[i + 1..];
      ghost var before := View(buffer);
      var answer := Perform(buffer, ops[i]);
      FifoOneMore(start.records, before, ops, answers, i, answer);
      answers := answers + [answer];
    }
    assert ops[..|ops|] == ops;
  }
}
