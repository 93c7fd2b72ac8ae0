/** Partition of the observed range `[0, maxTime]` into equal intervals. */
module Partition {

  /** The fixed number of intervals. */
  const NUM_OF_INTERVALS: nat := 10

  /** `max_time / num_of_intervals`, with `num_of_intervals` fixed at 10. */
  function IntervalLength(maxTime: nat): real
  {
    maxTime as real / 10.0
  }

  /** Border `j` of the partition: each border lies one interval length
      past the one before. */
  function Border(maxTime: nat, j: nat): real
  {
    if j == 0 then 0.0 else Border(maxTime, j - 1) + IntervalLength(maxTime)
  }

  /** The interval borders as the generator yields them: `i / 10` for
      `i = 0, maxTime, 2 * maxTime, ..., 10 * maxTime`. */
  function Borders(maxTime: nat): (b: seq<real>)
    requires maxTime > 0
    ensures |b| == NUM_OF_INTERVALS + 1
  {
    seq(NUM_OF_INTERVALS + 1, j requires 0 <= j <= NUM_OF_INTERVALS => (j * maxTime) as real / 10.0)
  }

  /** Border `j` lies `j` interval lengths from 0. */
  lemma {:induction false} BorderAt(maxTime: nat, j: nat)
    ensures Border(maxTime, j) == j as real * IntervalLength(maxTime)
  {
    if j > 0 {
      BorderAt(maxTime, j - 1);
    }
  }

  /** The value the generator yields for `i = j * maxTime` is border `j`. */
  lemma {:induction false} GeneratorYieldsBorder(maxTime: nat, j: nat, i: nat)
    requires i == j * maxTime
    ensures i as real / 10.0 == Border(maxTime, j)
  {
    BorderAt(maxTime, j);
    assert (j * maxTime) as real == j as real * maxTime as real;
  }

  /** The listed borders are the partition's borders. */
  lemma {:induction false} BordersAt(maxTime: nat, j: nat)
    requires maxTime > 0 && j <= NUM_OF_INTERVALS
    ensures Borders(maxTime)[j] == Border(maxTime, j)
  {
    GeneratorYieldsBorder(maxTime, j, j * maxTime);
  }

  /** The first border is 0 and the last is the largest observation. */
  lemma {:induction false} BordersEnds(maxTime: nat)
    ensures Border(maxTime, 0) == 0.0
    ensures Border(maxTime, NUM_OF_INTERVALS) == maxTime as real
  {
    BorderAt(maxTime, NUM_OF_INTERVALS);
  }

  /** With a positive range the borders are strictly increasing. */
  lemma {:induction false} BordersIncrease(maxTime: nat, i: nat, j: nat)
    requires maxTime > 0 && i < j
    ensures Border(maxTime, i) < Border(maxTime, j)
    decreases j - i
  {
    if i + 1 < j {
      BordersIncrease(maxTime, i, j - 1);
    }
  }
}
