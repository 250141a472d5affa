/**
 The "people watching live" counter in the page header (LiveCounter).

 The count starts at a fixed seed and, on every firing of a 2500 ms interval,
 moves by a pseudo-random change in [-3, 8]. The result is kept in the band
 [MinCount, MaxCount] by an asymmetric policy: a sum above the band wraps round
 from the bottom, a sum below the band is clamped to the bottom.
 */
module LiveCounter {

  const MinCount: int := 49000
  const MaxCount: int := 63000
  /** The count every fresh mount starts from. */
  const Seed: int := 49598
  const MinChange: int := -3
  const MaxChange: int := 8
  /** Number of equally likely integer draws behind one change. */
  const DrawCount: nat := 12
  /** Period of the counter interval, in milliseconds. */
  const TickPeriodMs: nat := 2500

  predicate InBand(n: int) {
    MinCount <= n <= MaxCount
  }

  predicate ValidChange(change: int) {
    MinChange <= change <= MaxChange
  }

  predicate AllValid(changes: seq<int>) {
    forall i :: 0 <= i < |changes| ==> ValidChange(changes[i])
  }

  /** The change of one tick, given the integer part k of random() * 12. */
  function ChangeOfDraw(k: int): (change: int)
    requires 0 <= k < DrawCount
    ensures ValidChange(change)
  {
    k - 3
  }

  /** The draws produce exactly the changes in [MinChange, MaxChange]. */
  lemma DrawsCoverChanges(change: int)
    ensures ValidChange(change) <==> exists k :: 0 <= k < DrawCount && ChangeOfDraw(k) == change
  {
    if ValidChange(change) {
      assert ChangeOfDraw(change + 3) == change;
    }
  }

  /**
   The interval's updater: the next count from the previous one and the change.
   It is total; below the band it never goes, whatever the inputs.
   */
  function Step(prev: int, change: int): (next: int)
    ensures next >= MinCount
    ensures InBand(prev) && change <= MaxCount - MinCount ==> InBand(next)
  {
    var candidate := prev + change;
    if candidate > MaxCount then MinCount + (candidate - MaxCount)
    else if candidate < MinCount then MinCount
    else candidate
  }

  /** Overflow wraps round from the bottom of the band. */
  lemma StepWraps(prev: int, change: int)
    requires prev + change > MaxCount
    ensures Step(prev, change) == MinCount + (prev + change - MaxCount)
    ensures Step(prev, change) > MinCount
  {
  }

  /** Underflow is clamped to the bottom of the band. */
  lemma StepClamps(prev: int, change: int)
    requires prev + change < MinCount
    ensures Step(prev, change) == MinCount
  {
  }

  /** Inside the band the change is applied unaltered. */
  lemma StepKeeps(prev: int, change: int)
    requires InBand(prev + change)
    ensures Step(prev, change) == prev + change
  {
  }

  /** The result stays at or under the top exactly when the sum is at most one band width above it. */
  lemma StepBelowTopIff(prev: int, change: int)
    ensures Step(prev, change) <= MaxCount <==> prev + change <= 2 * MaxCount - MinCount
  {
  }

  /** From inside the band, a wrapped result lands just above the bottom: in [49001, 49008]. */
  lemma WrapLanding(prev: int, change: int)
    requires InBand(prev) && ValidChange(change)
    requires prev + change > MaxCount
    ensures MinCount + 1 <= Step(prev, change) <= MinCount + MaxChange
  {
  }

  /** The count after applying the ticks' changes, in order, to start. */
  function Run(start: int, changes: seq<int>): int
    decreases |changes|
  {
    if changes == [] then start
    else Step(Run(start, changes[..|changes| - 1]), changes[|changes| - 1])
  }

  /** One more tick after a run is one step more. */
  lemma RunSnoc(start: int, changes: seq<int>, change: int)
    ensures Run(start, changes + [change]) == Step(Run(start, changes), change)
  {
    assert (changes + [change])[..|changes|] == changes;
  }

  /** Band invariant: from inside the band, any sequence of ticks keeps the count in the band. */
  lemma {:induction false} RunStaysInBand(start: int, changes: seq<int>)
    requires InBand(start)
    requires AllValid(changes)
    ensures InBand(Run(start, changes))
    decreases |changes|
  {
    if changes != [] {
      var init := changes[..|changes| - 1];
      assert AllValid(init) by {
        forall i | 0 <= i < |init| ensures ValidChange(init[i]) {
          assert init[i] == changes[i];
        }
      }
      RunStaysInBand(start, init);
      assert ValidChange(changes[|changes| - 1]);
    }
  }

  /** Every count shown after mount, after any number of ticks, lies in the band. */
  lemma {:induction false} EveryShownCountInBand(changes: seq<int>, i: nat)
    requires AllValid(changes)
    requires i <= |changes|
    ensures InBand(Run(Seed, changes[..i]))
  {
    var prefix := changes[..i];
    assert AllValid(prefix) by {
      forall j | 0 <= j < |prefix| ensures ValidChange(prefix[j]) {
        assert prefix[j] == changes[j];
      }
    }
    RunStaysInBand(Seed, prefix);
  }

  /**
   The mounted counter: its count, whether its interval is still registered,
   and (for the proof) the changes applied since mount.
   */
  class Counter {
    var count: int
    var intervalActive: bool
    ghost var history: seq<int>

    ghost predicate Valid()
      reads this
    {
      AllValid(history) && count == Run(Seed, history) && InBand(count)
    }

    /** Mount: the count starts at the seed and the interval is registered. */
    constructor ()
      ensures Valid()
      ensures count == Seed && intervalActive && history == []
    {
      count := Seed;
      intervalActive := true;
      history := [];
    }

    /** One firing of the interval with the given change; after teardown nothing happens. */
    method Tick(change: int)
      requires Valid()
      requires ValidChange(change)
      modifies this
      ensures Valid()
      ensures intervalActive == old(intervalActive)
      ensures old(intervalActive) ==> count == Step(old(count), change) && history == old(history) + [change]
      ensures !old(intervalActive) ==> count == old(count) && history == old(history)
    {
      if intervalActive {
        RunSnoc(Seed, history, change);
        count := Step(count, change);
        history := history + [change];
      }
    }

    /** Unmount: the interval is cleared; the count is left as it is. */
    method Unmount()
      requires Valid()
      modifies this
      ensures Valid()
      ensures !intervalActive
      ensures count == old(count) && history == old(history)
    {
      intervalActive := false;
    }
  }
}
