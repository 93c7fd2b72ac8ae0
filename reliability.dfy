/** The reliability indicators of one sample of times to failure, computed in
    place on an object in the order the original program assigns them. */
module Reliability {
  import opened Outcomes
  import opened Sample
  import opened Partition
  import opened Histogram
  import opened SurvivalCurve
  import opened EmpiricalSurvival
  import opened Percentile
  import opened Hazard

  class ReliabilityIndicators {
    // The inputs.
    var uptime: real
    var lambdaUptime: real
    var gamma: real
    var workTimes: seq<nat>

    // The results, in the order `RunCalculations` assigns them.
    var averageTime: real
    var maxTime: nat
    var numOfIntervals: nat
    var intervalLength: real
    var intervalBorders: seq<real>
    var failureProbabilities: seq<real>
    var probabilitiesOfErrorFreeOperation: seq<real>
    var operatingTimeToFailure: real
    var probabilityOfErrorFreeOperation: real
    var failureIntensity: real

    /** Stores the inputs, the sample sorted ascending. The results start at
        0 and empty; they are set by `RunCalculations`. */
    constructor(uptime: real, lambdaUptime: real, gamma: real, workTimes: seq<nat>)
      ensures this.uptime == uptime && this.lambdaUptime == lambdaUptime && this.gamma == gamma
      ensures this.workTimes == SortAscending(workTimes)
      ensures IsAscending(this.workTimes) && multiset(this.workTimes) == multiset(workTimes)
      ensures averageTime == 0.0 && maxTime == 0 && numOfIntervals == 0 && intervalLength == 0.0
      ensures intervalBorders == [] && failureProbabilities == [] && probabilitiesOfErrorFreeOperation == []
      ensures operatingTimeToFailure == 0.0 && probabilityOfErrorFreeOperation == 0.0 && failureIntensity == 0.0
    {
      this.uptime := uptime;
      this.lambdaUptime := lambdaUptime;
      this.gamma := gamma;
      this.workTimes := SortAscending(workTimes);
      averageTime := 0.0;
      maxTime := 0;
      numOfIntervals := 0;
      intervalLength := 0.0;
      intervalBorders := [];
      failureProbabilities := [];
      probabilitiesOfErrorFreeOperation := [];
      operatingTimeToFailure := 0.0;
      probabilityOfErrorFreeOperation := 0.0;
      failureIntensity := 0.0;
    }

    /** The borders `i / 10` for `i` in `range(0, maxTime * 10 + 1, maxTime)`. */
    method CalculateIntervalBorders() returns (borders: seq<real>)
      requires maxTime > 0 && numOfIntervals == NUM_OF_INTERVALS
      ensures borders == Borders(maxTime)
    {
      var step, n := maxTime, numOfIntervals;
      var stop := step * n + 1;
      borders := [];
      var i: nat := 0;
      while i < stop
        invariant i == |borders| * step
        invariant |borders| <= NUM_OF_INTERVALS + 1
        invariant forall j :: 0 <= j < |borders| ==> borders[j] == Border(step, j)
        decreases stop - i
      {
        StepsBeforeStop(|borders|, step, i, stop);
        GeneratorYieldsBorder(step, |borders|, i);
        NextMultiple(|borders|, step, i);
        borders := borders + [i as real / n as real];
        i := i + step;
      }
      StepsBeforeStop(|borders|, step, i, stop);
      AllBorders(step, borders);
    }

    /** The densities of the ten intervals, from the borders just computed. */
    method CalculateFailureProbabilities() returns (fp: seq<real>)
      requires |workTimes| > 0 && maxTime > 0 && numOfIntervals == NUM_OF_INTERVALS
      requires intervalBorders == Borders(maxTime) && intervalLength == IntervalLength(maxTime)
      ensures fp == Densities(workTimes, maxTime)
    {
      var s, m, borders, w := workTimes, maxTime, intervalBorders, intervalLength;
      fp := [];
      var i: nat := 0;
      while i < numOfIntervals
        invariant i <= NUM_OF_INTERVALS
        invariant fp == DensitiesUpTo(s, m, i)
      {
        BordersOfInterval(m, borders, i);
        var lo, hi := borders[i], borders[i + 1];
        var count := CountIn(s, lo, hi);
        var density := count as real / (|s| as real * w);
        DensityFromBorders(s, m, i, lo, hi, w, density);
        DensitiesExtend(s, m, i, fp, density);
        fp := fp + [density];
        i := i + 1;
      }
    }

    /** The survival probability at every border, in order. */
    method CalculateAllProbabilitiesOfErrorFreeOperation() returns (p: seq<real>)
      requires intervalLength > 0.0
      requires forall j :: 0 <= j < |intervalBorders| ==> intervalBorders[j] >= 0.0
      ensures |p| == |intervalBorders|
      ensures forall j :: 0 <= j < |p| ==> p[j] == Survival(failureProbabilities, intervalLength, intervalBorders[j])
    {
      var borders, fp, w := intervalBorders, failureProbabilities, intervalLength;
      p := [];
      var i := 0;
      while i < |borders|
        invariant i <= |borders| && |p| == i
        invariant forall j :: 0 <= j < i ==> p[j] == Survival(fp, w, borders[j])
      {
        p := p + [Survival(fp, w, borders[i])];
        i := i + 1;
      }
    }

    /** All the indicators, in the source's order. A stage that fails returns
        its error and leaves the later results as they were; the results of
        the stages before it stay assigned. */
    method RunCalculations() returns (outcome: Outcome)
      requires uptime >= 0.0 && lambdaUptime >= 0.0
      modifies this
      ensures uptime == old(uptime) && lambdaUptime == old(lambdaUptime) && gamma == old(gamma)
      ensures workTimes == old(workTimes)
      ensures |workTimes| == 0 ==> outcome == Fail(EmptySample) && unchanged(this)
      ensures |workTimes| > 0 ==> StatisticsComputed()
      ensures |workTimes| > 0 && maxTime == 0 ==>
                outcome == Fail(DegenerateRange) && CurveUnchanged() && IndicatorsUnchanged()
      ensures |workTimes| > 0 && maxTime > 0 ==>
                CurveComputed() &&
                IndicatorsComputed(outcome, old(operatingTimeToFailure), old(probabilityOfErrorFreeOperation),
                                   old(failureIntensity))
    {
      if |workTimes| == 0 {
        return Fail(EmptySample);
      }
      CalculateStatistics();
      if maxTime == 0 {
        return Fail(DegenerateRange);
      }
      outcome := CalculateFromCurve();
    }

    /** The stages after the interval length: the curve, then the indicators. */
    method CalculateFromCurve() returns (outcome: Outcome)
      requires |workTimes| > 0 && maxTime > 0 && uptime >= 0.0 && lambdaUptime >= 0.0
      requires numOfIntervals == NUM_OF_INTERVALS && intervalLength == IntervalLength(maxTime)
      modifies this`intervalBorders, this`failureProbabilities, this`probabilitiesOfErrorFreeOperation
      modifies this`operatingTimeToFailure, this`probabilityOfErrorFreeOperation, this`failureIntensity
      ensures CurveComputed() &&
              IndicatorsComputed(outcome, old(operatingTimeToFailure), old(probabilityOfErrorFreeOperation),
                                 old(failureIntensity))
    {
      CalculateCurve();
      outcome := CalculateIndicators();
    }

    /** The mean and largest observation, the number of intervals and their
        length. */
    method CalculateStatistics()
      requires |workTimes| > 0
      modifies this`averageTime, this`maxTime, this`numOfIntervals, this`intervalLength
      ensures StatisticsComputed()
    {
      averageTime := Mean(workTimes);
      maxTime := Max(workTimes);
      numOfIntervals := NUM_OF_INTERVALS;
      intervalLength := maxTime as real / numOfIntervals as real;
    }

    /** The borders, the histogram and the survival probability at each border. */
    method CalculateCurve()
      requires |workTimes| > 0 && maxTime > 0
      requires numOfIntervals == NUM_OF_INTERVALS && intervalLength == IntervalLength(maxTime)
      modifies this`intervalBorders, this`failureProbabilities, this`probabilitiesOfErrorFreeOperation
      ensures CurveComputed()
    {
      intervalBorders := CalculateIntervalBorders();
      BordersNonNegative(maxTime, intervalBorders);
      PositiveLength(maxTime);
      failureProbabilities := CalculateFailureProbabilities();
      probabilitiesOfErrorFreeOperation := CalculateAllProbabilitiesOfErrorFreeOperation();
      SampleBorderSurvivals(workTimes, maxTime, intervalBorders, failureProbabilities, intervalLength,
                            probabilitiesOfErrorFreeOperation);
    }

    /** The time by which a share `1 - gamma` of the items has failed, the
        survival probability at `uptime` and the hazard rate at `lambdaUptime`,
        each stage stopping at its error. */
    method CalculateIndicators() returns (outcome: Outcome)
      requires intervalLength > 0.0 && uptime >= 0.0 && lambdaUptime >= 0.0
      modifies this`operatingTimeToFailure, this`probabilityOfErrorFreeOperation, this`failureIntensity
      ensures IndicatorsComputed(outcome, old(operatingTimeToFailure), old(probabilityOfErrorFreeOperation),
                                 old(failureIntensity))
    {
      var percentile := OperatingTimeToFailure(probabilitiesOfErrorFreeOperation, failureProbabilities,
                                               intervalLength, gamma);
      if percentile.Err? {
        return Fail(percentile.error);
      }
      operatingTimeToFailure := percentile.value;
      probabilityOfErrorFreeOperation := Survival(failureProbabilities, intervalLength, uptime);
      var intensity := FailureIntensity(failureProbabilities, intervalLength, lambdaUptime);
      if intensity.Err? {
        return Fail(intensity.error);
      }
      failureIntensity := intensity.value;
      outcome := Pass;
    }

    /** The statistics of a non-empty sample. */
    predicate StatisticsComputed()
      requires |workTimes| > 0
      reads this`workTimes, this`averageTime, this`maxTime, this`numOfIntervals, this`intervalLength
    {
      averageTime == Mean(workTimes) && maxTime == Max(workTimes) &&
      numOfIntervals == NUM_OF_INTERVALS && intervalLength == IntervalLength(maxTime)
    }

    twostate predicate CurveUnchanged()
      reads this
    {
      intervalBorders == old(intervalBorders) && failureProbabilities == old(failureProbabilities) &&
      probabilitiesOfErrorFreeOperation == old(probabilitiesOfErrorFreeOperation)
    }

    twostate predicate IndicatorsUnchanged()
      reads this
    {
      operatingTimeToFailure == old(operatingTimeToFailure) &&
      probabilityOfErrorFreeOperation == old(probabilityOfErrorFreeOperation) &&
      failureIntensity == old(failureIntensity)
    }

    /** What the last stages leave, given the three results from before: on a
        percentile error none of them changes; otherwise the operating time to
        failure and the survival probability at `uptime` are set, and the
        hazard rate is set unless it fails. */
    predicate IndicatorsComputed(outcome: Outcome, formerTime: real, formerProbability: real, formerIntensity: real)
      requires intervalLength > 0.0 && uptime >= 0.0 && lambdaUptime >= 0.0
      reads this`probabilitiesOfErrorFreeOperation, this`failureProbabilities, this`intervalLength, this`gamma
      reads this`uptime, this`lambdaUptime
      reads this`operatingTimeToFailure, this`probabilityOfErrorFreeOperation, this`failureIntensity
    {
      var percentile := OperatingTimeToFailure(probabilitiesOfErrorFreeOperation, failureProbabilities,
                                               intervalLength, gamma);
      (percentile.Err? ==>
         outcome == Fail(percentile.error) && operatingTimeToFailure == formerTime &&
         probabilityOfErrorFreeOperation == formerProbability && failureIntensity == formerIntensity) &&
      (percentile.Ok? ==>
         operatingTimeToFailure == percentile.value &&
         probabilityOfErrorFreeOperation == Survival(failureProbabilities, intervalLength, uptime) &&
         var intensity := FailureIntensity(failureProbabilities, intervalLength, lambdaUptime);
         (intensity.Err? ==> outcome == Fail(intensity.error) && failureIntensity == formerIntensity) &&
         (intensity.Ok? ==> outcome == Pass && failureIntensity == intensity.value))
    }

    /** The borders, the histogram and the border survivals of a sample with
        a positive largest observation: border `j`'s survival is one minus the
        fraction of the sample that failed by that border. */
    predicate CurveComputed()
      requires |workTimes| > 0 && maxTime > 0
      reads this`workTimes, this`maxTime, this`intervalLength
      reads this`intervalBorders, this`failureProbabilities, this`probabilitiesOfErrorFreeOperation
    {
      intervalBorders == Borders(maxTime) &&
      failureProbabilities == Densities(workTimes, maxTime) &&
      IntervalLength(maxTime) > 0.0 &&
      intervalLength == IntervalLength(maxTime) &&
      AreBorderSurvivals(probabilitiesOfErrorFreeOperation, failureProbabilities, intervalLength) &&
      forall j :: 0 <= j < |probabilitiesOfErrorFreeOperation| ==>
        probabilitiesOfErrorFreeOperation[j] == 1.0 - Share(workTimes, maxTime, j)
    }
  }

  /** Eleven values, each the border of its index, are the borders. */
  lemma {:induction false} AllBorders(maxTime: nat, borders: seq<real>)
    requires maxTime > 0 && |borders| == NUM_OF_INTERVALS + 1
    requires forall j :: 0 <= j < |borders| ==> borders[j] == Border(maxTime, j)
    ensures borders == Borders(maxTime)
  {
    forall j | 0 <= j <= NUM_OF_INTERVALS
      ensures borders[j] == Borders(maxTime)[j]
    {
      BordersAt(maxTime, j);
    }
  }

  /** While `i < stop` the generator has yielded at most ten values, and when
      it stops it has yielded all eleven. */
  lemma {:induction false} StepsBeforeStop(count: nat, step: nat, i: nat, stop: nat)
    requires step > 0 && i == count * step && stop == step * NUM_OF_INTERVALS + 1
    ensures i < stop <==> count <= NUM_OF_INTERVALS
  {
    if count <= NUM_OF_INTERVALS {
      MulAtMost(count, NUM_OF_INTERVALS, step);
    } else {
      MulAtMost(NUM_OF_INTERVALS + 1, count, step);
    }
  }

  lemma {:induction false} NextMultiple(count: nat, step: nat, i: nat)
    requires i == count * step
    ensures i + step == (count + 1) * step
  {
  }

  lemma {:induction false} MulAtMost(a: nat, b: nat, step: nat)
    requires a <= b
    ensures a * step <= b * step
  {
  }

  lemma {:induction false} BordersOfInterval(maxTime: nat, borders: seq<real>, i: nat)
    requires maxTime > 0 && borders == Borders(maxTime) && i < NUM_OF_INTERVALS
    ensures i + 1 < |borders| && borders[i] == Border(maxTime, i) && borders[i + 1] == Border(maxTime, i + 1)
  {
    BordersAt(maxTime, i);
    BordersAt(maxTime, i + 1);
  }

  lemma {:induction false} DensitiesExtend(s: seq<nat>, maxTime: nat, i: nat, fp: seq<real>, density: real)
    requires |s| > 0 && maxTime > 0
    requires fp == DensitiesUpTo(s, maxTime, i) && density == Density(s, maxTime, i)
    ensures fp + [density] == DensitiesUpTo(s, maxTime, i + 1)
  {
  }

  /** The density the loop computes is the density of interval `i`. */
  lemma {:induction false} DensityFromBorders(s: seq<nat>, maxTime: nat, i: nat, lo: real, hi: real, w: real, density: real)
    requires |s| > 0 && maxTime > 0
    requires lo == Border(maxTime, i) && hi == Border(maxTime, i + 1) && w == IntervalLength(maxTime)
    requires density == CountIn(s, lo, hi) as real / (|s| as real * w)
    ensures density == Density(s, maxTime, i)
  {
  }

  lemma {:induction false} BordersNonNegative(maxTime: nat, borders: seq<real>)
    requires maxTime > 0 && borders == Borders(maxTime)
    ensures forall j :: 0 <= j < |borders| ==> borders[j] >= 0.0
  {
    forall j | 0 <= j < |borders|
      ensures borders[j] >= 0.0
    {
      BordersAt(maxTime, j);
      BorderNonNegative(maxTime, j);
    }
  }

  /** The survivals the object computes at its borders are border survivals
      in the sense of the percentile, and each is one minus the fraction of
      the sample that failed by that border. */
  lemma {:induction false} SampleBorderSurvivals(s: seq<nat>, maxTime: nat, borders: seq<real>, fp: seq<real>, w: real,
                                                 p: seq<real>)
    requires |s| > 0 && maxTime > 0
    requires borders == Borders(maxTime) && fp == Densities(s, maxTime) && w == IntervalLength(maxTime)
    requires forall j :: 0 <= j < |borders| ==> borders[j] >= 0.0
    requires w > 0.0 && |p| == |borders|
    requires forall j :: 0 <= j < |p| ==> p[j] == Survival(fp, w, borders[j])
    ensures AreBorderSurvivals(p, fp, w)
    ensures forall j :: 0 <= j < |p| ==> p[j] == 1.0 - Share(s, maxTime, j)
  {
    forall j: nat | j < |p|
      ensures WholeWidths(j, w) >= 0.0 && p[j] == Survival(fp, w, WholeWidths(j, w))
      ensures p[j] == 1.0 - Share(s, maxTime, j)
    {
      BorderSurvival(s, maxTime, borders, fp, w, p, j);
    }
  }

  lemma {:induction false} BorderSurvival(s: seq<nat>, maxTime: nat, borders: seq<real>, fp: seq<real>, w: real,
                                          p: seq<real>, j: nat)
    requires |s| > 0 && maxTime > 0
    requires borders == Borders(maxTime) && fp == Densities(s, maxTime) && w == IntervalLength(maxTime)
    requires w > 0.0 && |p| == |borders| && j < |p|
    requires borders[j] >= 0.0 && p[j] == Survival(fp, w, borders[j])
    ensures WholeWidths(j, w) >= 0.0 && p[j] == Survival(fp, w, WholeWidths(j, w))
    ensures p[j] == 1.0 - Share(s, maxTime, j)
  {
    var t := borders[j];
    BorderAsWidths(maxTime, borders, w, j, t);
    SampleSurvivalIs(s, maxTime, t, fp, w);
    SurvivalAtSampleBorder(s, maxTime, j);
  }

  lemma {:induction false} BorderAsWidths(maxTime: nat, borders: seq<real>, w: real, j: nat, t: real)
    requires maxTime > 0 && borders == Borders(maxTime) && w == IntervalLength(maxTime)
    requires j < |borders| && t == borders[j]
    ensures j <= NUM_OF_INTERVALS && t == Border(maxTime, j) && t == WholeWidths(j, w) && t >= 0.0
  {
    BordersAt(maxTime, j);
    BorderTime(maxTime, j, w, t);
  }

  /** For a sample's own histogram with `idx >= 1`, every time before the
      operating time to failure still has a survival probability above gamma:
      the result is the first time the survival curve reaches gamma. */
  lemma {:induction false} SampleFirstCrossing(s: seq<nat>, maxTime: nat, fp: seq<real>, w: real, p: seq<real>,
                                               gamma: real, t2: real)
    requires |s| > 0 && maxTime > 0 && fp == Densities(s, maxTime) && w == IntervalLength(maxTime)
    requires w > 0.0 && AreBorderSurvivals(p, fp, w)
    requires PercentileIndex(p, gamma).Ok? && PercentileIndex(p, gamma).value > 0
    requires OperatingTimeToFailure(p, fp, w, gamma).Ok?
    requires 0.0 <= t2 < OperatingTimeToFailure(p, fp, w, gamma).value
    ensures SampleSurvival(s, maxTime, t2) > gamma
  {
    DensitiesNonNegative(s, maxTime);
    FirstCrossing(p, fp, w, gamma, t2);
    SampleSurvivalIs(s, maxTime, t2, fp, w);
  }

  /** `max(work_times)` reads the module-level list, not the instance's own
      sample. When the two differ, an observation above the module-level
      maximum lies past the last border: for the sample `[5]` with the
      module-level list `[1]` the histogram's area is 0, whereas with the
      sample's own maximum it is 1, as `Histogram.DensitiesIntegrate` promises. */
  lemma {:induction false} GlobalMaximumLosesObservations()
    ensures Max([1]) == 1 && Max([5]) == 5
    ensures Mass([5], Max([1]), NUM_OF_INTERVALS) == 0.0
    ensures Mass([5], Max([5]), NUM_OF_INTERVALS) == 1.0
  {
    var sample: seq<nat> := [5];
    assert Max([1]) == 1;
    assert Max(sample) == 5;
    BordersEnds(1);
    BordersEnds(5);
    assert CountIn(sample, 0.0, Border(1, NUM_OF_INTERVALS)) == 0;
    assert CountIn(sample, 0.0, Border(5, NUM_OF_INTERVALS)) == 1;
    DensityPrefixMass(sample, 1, NUM_OF_INTERVALS);
    DensityPrefixMass(sample, 5, NUM_OF_INTERVALS);
  }
}
