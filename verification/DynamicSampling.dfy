/** The dynamic-sampling cache (nemo_rl/algorithms/grpo.py, lines 1248-1339 and 2102): generated rows are
    filtered and collected until a training batch is full. */
module DynamicSampling {

  /** A generated row; `spread` is the standard deviation of its prompt group. */
  datatype Row<T> = Row(item: T, spread: real)

  datatype Offer<T> = Complete(batch: seq<Row<T>>, discarded: nat) | Continue | GaveUp | BadSetting

  function Useful<T>(rows: seq<Row<T>>): seq<Row<T>>
  {
    if rows == [] then []
    else if rows[|rows| - 1].spread != 0.0 then Useful(rows[..|rows| - 1]) + [rows[|rows| - 1]]
    else Useful(rows[..|rows| - 1])
  }

  /** The places of the rows with non-zero spread, in generation order. */
  ghost predicate UsefulPlaces<T>(rows: seq<Row<T>>, at: seq<nat>)
  {
    && (forall a, b :: 0 <= a < b < |at| ==> at[a] < at[b])
    && (forall a :: 0 <= a < |at| ==> at[a] < |rows|)
    && (forall i: nat :: i < |rows| ==> (i in at <==> rows[i].spread != 0.0))
  }

  /** The useful rows are exactly those at these places. */
  lemma {:induction false} UsefulExactly<T>(rows: seq<Row<T>>) returns (at: seq<nat>)
    ensures UsefulPlaces(rows, at) && |at| == |Useful(rows)|
    ensures forall a :: 0 <= a < |at| ==> Useful(rows)[a] == rows[at[a]]
  {
    if rows == [] {
      at := [];
    } else {
      var n := |rows| - 1;
      at := UsefulExactly(rows[..n]);
      if rows[n].spread != 0.0 {
        at := at + [n];
      }
    }
  }

  /** `required` rows have non-zero spread. */
  ghost predicate Enough<T>(rows: seq<Row<T>>, required: nat)
  {
    exists at: seq<nat> :: UsefulPlaces(rows, at) && |at| >= required
  }

  /** A training batch: the first `required` rows with non-zero spread, in generation order. */
  ghost predicate IsTrainingBatch<T>(rows: seq<Row<T>>, batch: seq<Row<T>>, required: nat)
  {
    |batch| == required && exists at: seq<nat> ::
      UsefulPlaces(rows, at) && |at| >= required && forall a :: 0 <= a < required ==> batch[a] == rows[at[a]]
  }

  lemma SamePlaces(a: seq<nat>, b: seq<nat>)
    requires forall i, j :: 0 <= i < j < |a| ==> a[i] < a[j]
    requires forall i, j :: 0 <= i < j < |b| ==> b[i] < b[j]
    requires forall x: nat :: x in a <==> x in b
    ensures |a| == |b|
  {
    assert Members(a) == Members(b);
    AscendingSize(a);
    AscendingSize(b);
  }

  function Members(a: seq<nat>): (s: set<nat>)
    ensures forall x :: x in s <==> x in a
  {
    if a == [] then {} else Members(a[..|a| - 1]) + {a[|a| - 1]}
  }

  lemma {:induction false} AscendingSize(a: seq<nat>)
    requires forall i, j :: 0 <= i < j < |a| ==> a[i] < a[j]
    ensures |Members(a)| == |a|
  {
    if a != [] {
      AscendingSize(a[..|a| - 1]);
      assert a[|a| - 1] !in a[..|a| - 1];
    }
  }

  lemma BatchIsUseful<T>(rows: seq<Row<T>>, required: nat)
    ensures |Useful(rows)| >= required <==> Enough(rows, required)
    ensures |Useful(rows)| >= required ==> IsTrainingBatch(rows, Useful(rows)[..required], required)
  {
    var at := UsefulExactly(rows);
    if Enough(rows, required) {
      var other: seq<nat> :| UsefulPlaces(rows, other) && |other| >= required;
      SamePlaces(at, other);
    }
  }

  lemma {:induction false} UsefulJoin<T>(a: seq<Row<T>>, b: seq<Row<T>>)
    ensures Useful(a + b) == Useful(a) + Useful(b)
  {
    if b == [] {
      assert a + b == a;
    } else {
      UsefulJoin(a, b[..|b| - 1]);
      assert (a + b)[..|a + b| - 1] == a + b[..|b| - 1];
    }
  }

  class Cache<T> {
    const required: nat
    const maxBatches: int
    var cache: seq<Row<T>>
    var generated: nat
    /** Everything generated since the last full batch, in order. */
    ghost var seen: seq<Row<T>>

    ghost predicate Valid()
      reads this
    {
      cache == Useful(seen) && (|cache| < required || required == 0)
    }

    constructor (required: nat, maxBatches: int)
      ensures Valid() && seen == [] && generated == 0 && this.required == required && this.maxBatches == maxBatches
    {
      this.required, this.maxBatches := required, maxBatches;
      cache, generated, seen := [], 0, [];
    }

    /** One generated batch.  A training batch is the first `required` useful rows in generation order,
        returned as soon as there are so many; the rest of the cache is discarded with it. */
    method Add(rows: seq<Row<T>>) returns (offer: Offer<T>)
      requires Valid() && required > 0
      modifies this
      ensures offer.Complete? ==> offer.discarded == |Useful(old(seen) + rows)| - required
      ensures offer.Complete? <==> Enough(old(seen) + rows, required)
      ensures offer.Complete? ==> IsTrainingBatch(old(seen) + rows, offer.batch, required)
      ensures offer.Complete? ==> Valid() && seen == [] && generated == 0
      ensures offer.Continue? ==> Valid() && seen == old(seen) + rows && generated == old(generated) + 1 <= maxBatches
      ensures offer == BadSetting <==> !offer.Complete? && maxBatches <= 0
      ensures offer == GaveUp <==> !offer.Complete? && maxBatches > 0 && old(generated) + 1 > maxBatches
    {
      generated := generated + 1;
      UsefulJoin(seen, rows);
      seen := seen + rows;
      BatchIsUseful(seen, required);
      var filtered := Useful(rows);
      if |filtered| > 0 {
        cache := cache + filtered;
        filtered := cache;
      }
      if |filtered| < required {
        if maxBatches <= 0 {
          return BadSetting;
        }
        if generated <= maxBatches {
          assert |cache| < required;
          return Continue;
        }
        return GaveUp;
      }
      offer := Complete(filtered[..required], |filtered| - required);
      cache, generated, seen := [], 0, [];
    }
  }

  /** All batches of one step, joined. */
  function Joined<T>(batches: seq<seq<Row<T>>>): seq<Row<T>>
  {
    if batches == [] then [] else Joined(batches[..|batches| - 1]) + batches[|batches| - 1]
  }

  lemma OneMoreBatch<T>(batches: seq<seq<Row<T>>>, i: nat)
    requires i < |batches|
    ensures Joined(batches[..i + 1]) == Joined(batches[..i]) + batches[i]
  {
    assert batches[..i + 1][..i] == batches[..i];
  }

  /** Generate until a batch is full or the source runs dry.  The training batch depends only on the rows
      in generation order, not on how they were cut into batches. */
  method Collect<T>(required: nat, maxBatches: int, batches: seq<seq<Row<T>>>) returns (offer: Offer<T>, used: nat)
    requires required > 0
    ensures used <= |batches|
    ensures offer.Complete? ==> IsTrainingBatch(Joined(batches[..used]), offer.batch, required)
    ensures offer.Complete? ==> used > 0 && !Enough(Joined(batches[..used - 1]), required)
    ensures offer.Complete? && used > 1 ==> used - 1 <= maxBatches
    ensures !offer.Complete? ==> !Enough(Joined(batches[..used]), required)
    ensures offer.Continue? ==> used == |batches|
  {
    var c := new Cache<T>(required, maxBatches);
    offer, used := Continue, 0;
    NoneYet<T>(required);
    for i := 0 to |batches|
      invariant c.Valid() && c.required == required && c.maxBatches == maxBatches && fresh(c)
      invariant offer == Continue && used == i == c.generated && c.seen == Joined(batches[..i])
      invariant i > 0 ==> i <= maxBatches
      invariant !Enough(c.seen, required)
    {
      OneMoreBatch(batches, i);
      offer := c.Add(batches[i]);
      used := i + 1;
      if offer != Continue {
        return;
      }
    }
  }

  lemma NoneYet<T>(required: nat)
    requires required > 0
    ensures !Enough<T>([], required)
  {
    BatchIsUseful<T>([], required);
  }
}
