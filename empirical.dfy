/** The survival curve of a sample: the curve built from the sample's own
    histogram, evaluated at the sample's borders and beyond its range. */
module EmpiricalSurvival {
  import opened Partition
  import opened Histogram
  import opened SurvivalCurve

  /** The survival probability at time `t` computed from the sample `s`. */
  function SampleSurvival(s: seq<nat>, maxTime: nat, t: real): real
    requires |s| > 0 && maxTime > 0 && t >= 0.0
  {
    PositiveLength(maxTime);
    Survival(Densities(s, maxTime), IntervalLength(maxTime), t)
  }

  lemma {:induction false} PositiveLength(maxTime: nat)
    requires maxTime > 0
    ensures IntervalLength(maxTime) > 0.0
  {
  }

  /** Every border is at or after time 0. */
  lemma {:induction false} BorderNonNegative(maxTime: nat, j: nat)
    requires maxTime > 0
    ensures Border(maxTime, j) >= 0.0
  {
    BordersEnds(maxTime);
    if j > 0 {
      BordersIncrease(maxTime, 0, j);
    }
  }

  /** At border `j` the survival probability is one minus the fraction of the
      observations that failed in `(0, border[j]]`. */
  lemma {:induction false} SurvivalAtSampleBorder(s: seq<nat>, maxTime: nat, j: nat)
    requires |s| > 0 && maxTime > 0 && j <= NUM_OF_INTERVALS
    ensures Border(maxTime, j) >= 0.0
    ensures SampleSurvival(s, maxTime, Border(maxTime, j)) == 1.0 - Share(s, maxTime, j)
  {
    var fp, w := Densities(s, maxTime), IntervalLength(maxTime);
    var mass := SumReal(fp[..j]);
    SurvivalAtBorderAsMass(s, maxTime, j, fp, w, mass);
    PrefixMassIsShare(s, maxTime, j, fp, w, mass);
  }

  lemma {:induction false} SurvivalAtBorderAsMass(s: seq<nat>, maxTime: nat, j: nat, fp: seq<real>, w: real, mass: real)
    requires |s| > 0 && maxTime > 0 && j <= NUM_OF_INTERVALS
    requires fp == Densities(s, maxTime) && w == IntervalLength(maxTime) && mass == SumReal(fp[..j])
    ensures Border(maxTime, j) >= 0.0
    ensures SampleSurvival(s, maxTime, Border(maxTime, j)) == 1.0 - w * mass
  {
    var t := Border(maxTime, j);
    BorderTime(maxTime, j, w, t);
    SampleSurvivalAtTime(s, maxTime, j, t, fp, w, mass);
  }

  lemma {:induction false} BorderTime(maxTime: nat, j: nat, w: real, t: real)
    requires maxTime > 0 && w == IntervalLength(maxTime) && t == Border(maxTime, j)
    ensures w > 0.0 && t == j as real * w && t >= 0.0
  {
    PositiveLength(maxTime);
    BorderIs(maxTime, j, w);
    MulNonNegative(j as real, w);
  }

  lemma {:induction false} SampleSurvivalAtTime(s: seq<nat>, maxTime: nat, j: nat, t: real, fp: seq<real>, w: real, mass: real)
    requires |s| > 0 && maxTime > 0 && j <= NUM_OF_INTERVALS && t >= 0.0
    requires fp == Densities(s, maxTime) && w == IntervalLength(maxTime) && mass == SumReal(fp[..j])
    requires t == j as real * w
    ensures SampleSurvival(s, maxTime, t) == 1.0 - w * mass
  {
    SampleSurvivalIs(s, maxTime, t, fp, w);
    SurvivalAtBorderTime(fp, w, j, t);
  }

  lemma {:induction false} SampleSurvivalIs(s: seq<nat>, maxTime: nat, t: real, fp: seq<real>, w: real)
    requires |s| > 0 && maxTime > 0 && t >= 0.0
    requires fp == Densities(s, maxTime) && w == IntervalLength(maxTime)
    ensures w > 0.0 && |fp| == NUM_OF_INTERVALS
    ensures SampleSurvival(s, maxTime, t) == Survival(fp, w, t)
  {
    PositiveLength(maxTime);
  }

  lemma {:induction false} SurvivalAtBorderTime(fp: seq<real>, w: real, j: nat, t: real)
    requires w > 0.0 && j <= |fp| && t == j as real * w && t >= 0.0
    ensures Survival(fp, w, t) == 1.0 - w * SumReal(fp[..j])
  {
    SurvivalAtBorder(fp, w, j);
  }

  lemma {:induction false} PrefixMassIsShare(s: seq<nat>, maxTime: nat, j: nat, fp: seq<real>, w: real, mass: real)
    requires |s| > 0 && maxTime > 0 && j <= NUM_OF_INTERVALS
    requires fp == Densities(s, maxTime) && w == IntervalLength(maxTime) && mass == SumReal(fp[..j])
    ensures w * mass == Share(s, maxTime, j)
  {
    DensitiesPrefix(s, maxTime, NUM_OF_INTERVALS, j);
    DensityPrefixMass(s, maxTime, j);
    MassIs(s, maxTime, j, w, mass);
  }

  lemma {:induction false} BorderIs(maxTime: nat, j: nat, w: real)
    requires w == IntervalLength(maxTime)
    ensures Border(maxTime, j) == j as real * w
  {
    BorderAt(maxTime, j);
  }

  lemma {:induction false} MulNonNegative(x: real, w: real)
    requires x >= 0.0 && w >= 0.0
    ensures x * w >= 0.0
  {
  }

  lemma {:induction false} MassIs(s: seq<nat>, maxTime: nat, j: nat, w: real, sum: real)
    requires |s| > 0 && maxTime > 0
    requires w == IntervalLength(maxTime) && sum == SumReal(DensitiesUpTo(s, maxTime, j))
    ensures Mass(s, maxTime, j) == w * sum
  {
  }

  /** Nothing has failed at the first border. */
  lemma {:induction false} SurvivalAtFirstBorder(s: seq<nat>, maxTime: nat)
    requires |s| > 0 && maxTime > 0
    ensures SampleSurvival(s, maxTime, Border(maxTime, 0)) == 1.0
  {
    BordersEnds(maxTime);
    PositiveLength(maxTime);
    SurvivalAtZero(Densities(s, maxTime), IntervalLength(maxTime));
  }

  /** Survival at a later border is never larger. */
  lemma {:induction false} BorderSurvivalsNonIncreasing(s: seq<nat>, maxTime: nat, i: nat, j: nat)
    requires |s| > 0 && maxTime > 0 && i <= j
    ensures Border(maxTime, i) >= 0.0 && Border(maxTime, j) >= 0.0
    ensures SampleSurvival(s, maxTime, Border(maxTime, j)) <= SampleSurvival(s, maxTime, Border(maxTime, i))
  {
    BorderNonNegative(maxTime, i);
    BorderNonNegative(maxTime, j);
    if i < j {
      BordersIncrease(maxTime, i, j);
    }
    SampleNonIncreasing(s, maxTime, Border(maxTime, i), Border(maxTime, j));
  }

  /** The sample's survival curve never increases with time. */
  lemma {:induction false} SampleNonIncreasing(s: seq<nat>, maxTime: nat, t1: real, t2: real)
    requires |s| > 0 && maxTime > 0 && 0.0 <= t1 <= t2
    ensures SampleSurvival(s, maxTime, t2) <= SampleSurvival(s, maxTime, t1)
  {
    PositiveLength(maxTime);
    DensitiesNonNegative(s, maxTime);
    SurvivalNonIncreasing(Densities(s, maxTime), IntervalLength(maxTime), t1, t2);
  }

  /** From the largest observation on, the survival probability is the
      fraction of observations equal to 0 (they fall in no interval). */
  lemma {:induction false} SurvivalBeyondLargest(s: seq<nat>, maxTime: nat, t: real)
    requires |s| > 0 && maxTime > 0 && t >= maxTime as real
    requires forall i :: 0 <= i < |s| ==> s[i] <= maxTime
    ensures SampleSurvival(s, maxTime, t) == ZeroCount(s) as real / |s| as real
  {
    var fp, w := Densities(s, maxTime), IntervalLength(maxTime);
    var mass := SumReal(fp);
    SurvivalPastRange(s, maxTime, t, fp, w, mass);
    TotalMassIs(s, maxTime, fp, w, mass);
    DensitiesIntegrate(s, maxTime);
    var zeros, n := ZeroCount(s), |s|;
    Complement(zeros, n);
  }

  lemma {:induction false} SurvivalPastRange(s: seq<nat>, maxTime: nat, t: real, fp: seq<real>, w: real, mass: real)
    requires |s| > 0 && maxTime > 0 && t >= maxTime as real
    requires fp == Densities(s, maxTime) && w == IntervalLength(maxTime) && mass == SumReal(fp)
    ensures SampleSurvival(s, maxTime, t) == 1.0 - w * mass
  {
    SampleSurvivalIs(s, maxTime, t, fp, w);
    SurvivalPastEnd(fp, w, maxTime, t);
  }

  lemma {:induction false} SurvivalPastEnd(fp: seq<real>, w: real, maxTime: nat, t: real)
    requires maxTime > 0 && |fp| == NUM_OF_INTERVALS && w == IntervalLength(maxTime) && t >= maxTime as real
    ensures w > 0.0
    ensures Survival(fp, w, t) == 1.0 - w * SumReal(fp)
  {
    assert |fp| as real * w == maxTime as real;
    SurvivalBeyondRange(fp, w, t);
  }

  lemma {:induction false} TotalMassIs(s: seq<nat>, maxTime: nat, fp: seq<real>, w: real, mass: real)
    requires |s| > 0 && maxTime > 0
    requires fp == Densities(s, maxTime) && w == IntervalLength(maxTime) && mass == SumReal(fp)
    ensures w * mass == Mass(s, maxTime, NUM_OF_INTERVALS)
  {
    MassIs(s, maxTime, NUM_OF_INTERVALS, w, mass);
  }

  lemma {:induction false} Complement(zeros: nat, n: nat)
    requires 0 < n && zeros <= n
    ensures 1.0 - (n - zeros) as real / n as real == zeros as real / n as real
  {
    var nr, zr := n as real, zeros as real;
    var rest := nr - zr;
    assert (n - zeros) as real == rest;
    SumOfQuotients(rest, zr, nr);
    assert rest + zr == nr;
    SelfQuotient(nr);
  }

  lemma {:induction false} SumOfQuotients(a: real, b: real, n: real)
    requires n != 0.0
    ensures a / n + b / n == (a + b) / n
  {
  }

  lemma {:induction false} SelfQuotient(n: real)
    requires n != 0.0
    ensures n / n == 1.0
  {
  }

  /** The last border survival is the fraction of zero observations. */
  lemma {:induction false} SurvivalAtLastBorder(s: seq<nat>, maxTime: nat)
    requires |s| > 0 && maxTime > 0
    requires forall i :: 0 <= i < |s| ==> s[i] <= maxTime
    ensures Border(maxTime, NUM_OF_INTERVALS) == maxTime as real
    ensures SampleSurvival(s, maxTime, Border(maxTime, NUM_OF_INTERVALS)) == ZeroCount(s) as real / |s| as real
  {
    BordersEnds(maxTime);
    SurvivalBeyondLargest(s, maxTime, maxTime as real);
  }

  /** Every survival probability lies between the fraction of zero
      observations and 1. */
  lemma {:induction false} SurvivalBounds(s: seq<nat>, maxTime: nat, t: real)
    requires |s| > 0 && maxTime > 0 && t >= 0.0
    requires forall i :: 0 <= i < |s| ==> s[i] <= maxTime
    ensures ZeroCount(s) as real / |s| as real <= SampleSurvival(s, maxTime, t) <= 1.0
  {
    BordersEnds(maxTime);
    SurvivalAtFirstBorder(s, maxTime);
    SampleNonIncreasing(s, maxTime, 0.0, t);
    var late := if t >= maxTime as real then t else maxTime as real;
    SampleNonIncreasing(s, maxTime, t, late);
    SurvivalBeyondLargest(s, maxTime, late);
  }
}
