/** The failure intensity (hazard rate) at a time: the density of the
    interval holding that time divided by the survival probability there. */
module Hazard {
  import opened Outcomes
  import opened Partition
  import opened Histogram
  import opened SurvivalCurve
  import opened EmpiricalSurvival

  /** `fp[int(t // w)] / S(t)`. Indexing the histogram past its end is the
      error `IntervalIndexOutOfRange`; the index is evaluated before the
      survival probability, so that error wins. A zero survival probability
      is `ZeroSurvival`. */
  function FailureIntensity(fp: seq<real>, w: real, t: real): (r: Result<real>)
    requires w > 0.0 && t >= 0.0
  {
    var k := IntervalIndex(w, t);
    if k >= |fp| then Err(IntervalIndexOutOfRange)
    else
      var survival := Survival(fp, w, t);
      if survival == 0.0 then Err(ZeroSurvival) else Ok(fp[k] / survival)
  }

  /** The interval index is below `n` exactly when `t` comes before the end
      of the `n`-th interval. */
  lemma {:induction false} IndexBelow(w: real, t: real, n: nat)
    requires w > 0.0 && t >= 0.0
    ensures IntervalIndex(w, t) < n <==> t < n as real * w
  {
    var q := t / w;
    var k := IntervalIndex(w, t);
    assert k == q.Floor;
    if t < n as real * w {
      BelowInWidths(t, w, n as real);
    } else {
      AtLeastInWidths(t, w, n as real);
    }
  }

  lemma {:induction false} BelowInWidths(t: real, w: real, x: real)
    requires w > 0.0 && t < x * w
    ensures t / w < x
  {
    var q := t / w;
    assert q * w == t;
    if x <= q {
      MulLe(w, x, q);
    }
  }

  /** The hazard rate is defined exactly when `t` lies before the end of the
      last interval and survival there is not 0; it is then the density that
      the survival probability multiplies back to. */
  lemma {:induction false} FailureIntensityDefined(fp: seq<real>, w: real, t: real)
    requires w > 0.0 && t >= 0.0
    ensures (FailureIntensity(fp, w, t) == Err(IntervalIndexOutOfRange)) <==> (t >= |fp| as real * w)
    ensures (FailureIntensity(fp, w, t) == Err(ZeroSurvival)) <==> (t < |fp| as real * w && Survival(fp, w, t) == 0.0)
    ensures FailureIntensity(fp, w, t).Ok? <==> (t < |fp| as real * w && Survival(fp, w, t) != 0.0)
    ensures FailureIntensity(fp, w, t).Ok? ==>
              IntervalIndex(w, t) < |fp| &&
              FailureIntensity(fp, w, t).value * Survival(fp, w, t) == fp[IntervalIndex(w, t)]
  {
    IndexBelow(w, t, |fp|);
    var k := IntervalIndex(w, t);
    if k < |fp| {
      var survival := Survival(fp, w, t);
      if survival != 0.0 {
        var density := fp[k];
        RatioTimes(density, survival);
      }
    }
  }

  lemma {:induction false} RatioTimes(x: real, y: real)
    requires y != 0.0
    ensures x / y * y == x
  {
  }

  /** With non-negative densities and positive survival the hazard rate is
      non-negative. */
  lemma {:induction false} FailureIntensityNonNegative(fp: seq<real>, w: real, t: real)
    requires w > 0.0 && t >= 0.0 && t < |fp| as real * w
    requires forall i :: 0 <= i < |fp| ==> fp[i] >= 0.0
    requires Survival(fp, w, t) > 0.0
    ensures FailureIntensity(fp, w, t).Ok? && FailureIntensity(fp, w, t).value >= 0.0
  {
    IndexBelow(w, t, |fp|);
    var k := IntervalIndex(w, t);
    var density, survival := fp[k], Survival(fp, w, t);
    NonNegativeRatio(density, survival);
  }

  /** For a sample's own histogram the hazard rate exists only strictly before
      the largest observation: from `maxTime` on, including `maxTime` itself,
      the index `int(t // w)` reaches 10 and the histogram is indexed past its
      end. */
  lemma {:induction false} SampleFailureIntensityRange(s: seq<nat>, maxTime: nat, t: real)
    requires |s| > 0 && maxTime > 0 && t >= 0.0
    ensures IntervalLength(maxTime) > 0.0
    ensures (FailureIntensity(Densities(s, maxTime), IntervalLength(maxTime), t) == Err(IntervalIndexOutOfRange))
              <==> (t >= maxTime as real)
  {
    PositiveLength(maxTime);
    var fp, w := Densities(s, maxTime), IntervalLength(maxTime);
    FailureIntensityDefined(fp, w, t);
    assert |fp| as real * w == maxTime as real;
  }
}
