/** The gamma-percentile operating time to failure: the first border whose
    survival probability is at most gamma, followed by a linear interpolation
    back into the interval that ends at that border. */
module Percentile {
  import opened Outcomes
  import opened Histogram
  import opened SurvivalCurve

  /** `filter(lambda y: y <= gamma, p)`, in order. */
  function AtMost(p: seq<real>, gamma: real): seq<real>
  {
    if p == [] then []
    else (if p[0] <= gamma then [p[0]] else []) + AtMost(p[1..], gamma)
  }

  /** `p.index(x)`: the position of the first occurrence of `x`. */
  function IndexOf(p: seq<real>, x: real): (i: nat)
    requires x in p
    ensures i < |p| && p[i] == x
    ensures forall j :: 0 <= j < i ==> p[j] != x
  {
    if p[0] == x then 0 else 1 + IndexOf(p[1..], x)
  }

  /** The position `idx` the source computes as
      `p.index(list(filter(lambda y: y <= gamma, p))[0])`; indexing the empty
      filtered list is the error `PercentileUnreachable`. */
  function PercentileIndex(p: seq<real>, gamma: real): (r: Result<nat>)
    ensures r.Err? <==> forall i :: 0 <= i < |p| ==> p[i] > gamma
    ensures r.Err? ==> r.error == PercentileUnreachable
    ensures r.Ok? ==> r.value < |p| && p[r.value] <= gamma
    ensures r.Ok? ==> forall j :: 0 <= j < r.value ==> p[j] > gamma
  {
    var qualifying := AtMost(p, gamma);
    if qualifying == [] then
      NoneAtMost(p, gamma);
      Err(PercentileUnreachable)
    else
      FirstAtMost(p, gamma);
      Ok(IndexOf(p, qualifying[0]))
  }

  /** The filtered list is empty exactly when no value is at most gamma. */
  lemma {:induction false} NoneAtMost(p: seq<real>, gamma: real)
    ensures AtMost(p, gamma) == [] <==> forall i :: 0 <= i < |p| ==> p[i] > gamma
  {
    if p != [] {
      NoneAtMost(p[1..], gamma);
      if AtMost(p, gamma) == [] {
        forall i | 0 <= i < |p|
          ensures p[i] > gamma
        {
          if i > 0 {
            assert p[i] == p[1..][i - 1];
          }
        }
      }
    }
  }

  /** The head of the filtered list is the value at the first position whose
      value is at most gamma, so its first occurrence is that position. */
  lemma {:induction false} FirstAtMost(p: seq<real>, gamma: real)
    requires AtMost(p, gamma) != []
    ensures AtMost(p, gamma)[0] in p
    ensures IndexOf(p, AtMost(p, gamma)[0]) < |p|
    ensures p[IndexOf(p, AtMost(p, gamma)[0])] <= gamma
    ensures forall j :: 0 <= j < IndexOf(p, AtMost(p, gamma)[0]) ==> p[j] > gamma
  {
    var i := FirstIndexAtMost(p, gamma);
    var x := AtMost(p, gamma)[0];
    assert x in p;
    var idx := IndexOf(p, x);
    if idx < i {
      assert p[idx] == x && x <= gamma;
    }
  }

  /** Returns the first position whose value is at most gamma, whose value
      heads the filtered list. */
  lemma {:induction false} FirstIndexAtMost(p: seq<real>, gamma: real) returns (i: nat)
    requires AtMost(p, gamma) != []
    ensures i < |p| && p[i] <= gamma && AtMost(p, gamma)[0] == p[i]
    ensures forall j :: 0 <= j < i ==> p[j] > gamma
  {
    if p[0] <= gamma {
      i := 0;
    } else {
      var k := FirstIndexAtMost(p[1..], gamma);
      i := k + 1;
      forall j | 0 <= j < i
        ensures p[j] > gamma
      {
        if j > 0 {
          assert p[j] == p[1..][j - 1];
        }
      }
    }
  }

  /** The gamma-percentile operating time to failure, for border survivals
      `p`, densities `fp` and interval length `w`. The interpolation divides by
      the survival difference across the interval; a zero difference is the
      error `FlatInterval`. */
  function OperatingTimeToFailure(p: seq<real>, fp: seq<real>, w: real, gamma: real): (r: Result<real>)
    requires w > 0.0
  {
    match PercentileIndex(p, gamma)
    case Err(e) => Err(e)
    case Ok(idx) =>
      if idx == 0 then InterpolationFromStart(fp, w, gamma)
      else Interpolation(fp, w, idx - 1, gamma)
  }

  /** The survival formula at time `-w`, where the interpolation looks when the
      first qualifying border is border 0: `int(-w // w)` is -1, so the slice
      `fp[0:-1]` drops the last density, `safely_get(fp, -1, 0)` reads the last
      density (an `IndexError` on an empty histogram) and `-w % w` is 0, so the
      last density contributes nothing. */
  function SurvivalOneWidthBefore(fp: seq<real>, w: real): Result<real>
  {
    if fp == [] then Err(IntervalIndexOutOfRange)
    else Ok(1.0 - SumReal(fp[..|fp| - 1]) * w)
  }

  /** `SurvivalOneWidthBefore` is Python's evaluation of the survival formula
      at `-w`. */
  lemma {:induction false} OneWidthBeforeInPython(fp: seq<real>, w: real)
    requires w > 0.0
    ensures SurvivalOneWidthBefore(fp, w) == PythonSurvival(fp, w, -w)
  {
    OneWidthBack(w);
    if fp != [] {
      var v, sum := fp[|fp| - 1], SumReal(fp[..|fp| - 1]);
      assert PythonSafelyGet(fp, -1, 0.0) == Ok(v);
      assert SumReal(PythonSlice(fp, -1)) == sum;
      assert PythonSurvival(fp, w, -w).Ok?;
      SameFormula(PythonSurvival(fp, w, -w).value, 1.0 - sum * w, sum, w, v, 0.0);
      assert PythonSurvival(fp, w, -w) == Ok(1.0 - sum * w);
      assert SurvivalOneWidthBefore(fp, w).value == 1.0 - sum * w;
      assert SurvivalOneWidthBefore(fp, w).Ok?;
    }
  }

  /** `-w // w` is -1 and `-w % w` is 0. */
  lemma {:induction false} OneWidthBack(w: real)
    requires w > 0.0
    ensures PythonFloorDiv(-w, w) == -1 && PythonMod(-w, w) == 0.0
  {
    assert -w / w == -1.0;
  }

  /** The interpolation when border 0 already qualifies: `current_t_i` is 0
      and `previous_t_i` is `-w`. */
  function InterpolationFromStart(fp: seq<real>, w: real, gamma: real): (r: Result<real>)
    requires w > 0.0
  {
    match SurvivalOneWidthBefore(fp, w)
    case Err(e) => Err(e)
    case Ok(sPrevious) =>
      var sCurrent := Survival(fp, w, 0.0);
      if sCurrent - sPrevious == 0.0 then Err(FlatInterval)
      else Ok(InterpolatedTime(w, 0.0, sCurrent, sPrevious, gamma))
  }

  /** The interpolation back from border `previousIdx + 1` towards border
      `previousIdx`, along the line through their survival probabilities. */
  function Interpolation(fp: seq<real>, w: real, previousIdx: nat, gamma: real): (r: Result<real>)
    requires w > 0.0
  {
    var current, previous := WholeWidths(previousIdx + 1, w), WholeWidths(previousIdx, w);
    WholeWidthsNonNegative(previousIdx + 1, w, current);
    WholeWidthsNonNegative(previousIdx, w, previous);
    var sCurrent, sPrevious := Survival(fp, w, current), Survival(fp, w, previous);
    if sCurrent - sPrevious == 0.0 then Err(FlatInterval)
    else Ok(InterpolatedTime(w, current, sCurrent, sPrevious, gamma))
  }

  /** `current_t_i - interval_length * (S(current) - gamma) / (S(current) - S(previous))` */
  function InterpolatedTime(w: real, current: real, sCurrent: real, sPrevious: real, gamma: real): real
    requires sCurrent - sPrevious != 0.0
  {
    current - w * (sCurrent - gamma) / (sCurrent - sPrevious)
  }

  /** Time after `j` whole intervals of length `w`. */
  function WholeWidths(j: nat, w: real): real
  {
    j as real * w
  }

  lemma {:induction false} WholeWidthsNonNegative(j: nat, w: real, t: real)
    requires w > 0.0 && t == WholeWidths(j, w)
    ensures t >= 0.0
  {
    MulLe(w, 0.0, j as real);
  }

  /** The errors of the percentile, each in terms of the border survivals. */
  lemma {:induction false} OperatingTimeErrors(p: seq<real>, fp: seq<real>, w: real, gamma: real)
    requires w > 0.0
    ensures (OperatingTimeToFailure(p, fp, w, gamma) == Err(PercentileUnreachable))
              <==> (forall i :: 0 <= i < |p| ==> p[i] > gamma)
    ensures (OperatingTimeToFailure(p, fp, w, gamma) == Err(IntervalIndexOutOfRange))
              <==> (|p| > 0 && p[0] <= gamma && fp == [])
  {
  }

  /** When border 0 already qualifies, the source's answer is `(gamma - 1) / sum(fp[..9])`
      (the width cancels): 0 exactly when gamma is 1, and a `FlatInterval`
      error when the first nine densities sum to 0. */
  lemma {:induction false} TargetAtStart(p: seq<real>, fp: seq<real>, w: real, gamma: real)
    requires w > 0.0 && fp != [] && |p| > 0 && p[0] <= gamma
    ensures PercentileIndex(p, gamma) == Ok(0)
    ensures var head := SumReal(fp[..|fp| - 1]);
            var r := OperatingTimeToFailure(p, fp, w, gamma);
            (r == Err(FlatInterval) <==> head == 0.0) &&
            (r.Ok? ==> r.value * head == gamma - 1.0 && (r.value == 0.0 <==> gamma == 1.0))
  {
    var head := SumReal(fp[..|fp| - 1]);
    var sPrevious := 1.0 - SumReal(fp[..|fp| - 1]) * w;
    assert SurvivalOneWidthBefore(fp, w) == Ok(sPrevious);
    SurvivalAtZero(fp, w);
    assert OperatingTimeToFailure(p, fp, w, gamma) == InterpolationFromStart(fp, w, gamma);
    var drop := SumReal(fp[..|fp| - 1]) * w;
    ZeroDrop(head, w, drop);
    if head != 0.0 {
      var t := InterpolatedTime(w, 0.0, 1.0, sPrevious, gamma);
      assert InterpolationFromStart(fp, w, gamma) == Ok(t);
      StartTime(w, head, drop, sPrevious, gamma, t);
    }
  }

  lemma {:induction false} ZeroDrop(head: real, w: real, drop: real)
    requires w > 0.0 && drop == head * w
    ensures drop == 0.0 <==> head == 0.0
  {
  }

  lemma {:induction false} StartTime(w: real, head: real, drop: real, sPrevious: real, gamma: real, t: real)
    requires w > 0.0 && head != 0.0 && drop == head * w && sPrevious == 1.0 - drop
    requires t == InterpolatedTime(w, 0.0, 1.0, sPrevious, gamma)
    ensures t * head == gamma - 1.0
    ensures t == 0.0 <==> gamma == 1.0
  {
    assert t == 0.0 - w * (1.0 - gamma) / drop;
    var ratio := (1.0 - gamma) / head;
    assert w * (1.0 - gamma) / drop == ratio;
    assert ratio * head == 1.0 - gamma;
  }

  /** `p` holds the survival probability at every border `j * w`, one border
      more than there are intervals. */
  predicate AreBorderSurvivals(p: seq<real>, fp: seq<real>, w: real)
    requires w > 0.0
  {
    |p| == |fp| + 1 &&
    forall j: nat :: j < |p| ==> WholeWidths(j, w) >= 0.0 && p[j] == Survival(fp, w, WholeWidths(j, w))
  }

  /** On border survivals the interpolation never divides by zero, lands in
      the interval that ends at the chosen border (at its right end exactly
      when the border's survival equals gamma), and is a time at which the
      survival probability is exactly gamma. */
  lemma {:induction false} InterpolationOnBorders(p: seq<real>, fp: seq<real>, w: real, gamma: real)
    requires w > 0.0 && AreBorderSurvivals(p, fp, w)
    ensures PercentileIndex(p, gamma).Ok? && PercentileIndex(p, gamma).value > 0 ==>
              OperatingTimeToFailure(p, fp, w, gamma).Ok?
    ensures PercentileIndex(p, gamma).Ok? && PercentileIndex(p, gamma).value > 0 ==>
              var t, idx := OperatingTimeToFailure(p, fp, w, gamma).value, PercentileIndex(p, gamma).value;
              WholeWidths(idx - 1, w) < t <= WholeWidths(idx, w) &&
              (t == WholeWidths(idx, w) <==> p[idx] == gamma) &&
              t >= 0.0 && Survival(fp, w, t) == gamma
  {
    var index := PercentileIndex(p, gamma);
    if index.Ok? && index.value > 0 {
      var idx := index.value;
      var j: nat := idx - 1;
      assert OperatingTimeToFailure(p, fp, w, gamma) == Interpolation(fp, w, j, gamma);
      InterpolateAt(p, fp, w, gamma, j, idx);
    }
  }

  /** The operating time to failure is the FIRST time at which survival falls
      to gamma: with non-negative densities every earlier time still has a
      survival probability above gamma. */
  lemma {:induction false} FirstCrossing(p: seq<real>, fp: seq<real>, w: real, gamma: real, t2: real)
    requires w > 0.0 && AreBorderSurvivals(p, fp, w)
    requires forall i :: 0 <= i < |fp| ==> fp[i] >= 0.0
    requires PercentileIndex(p, gamma).Ok? && PercentileIndex(p, gamma).value > 0
    requires OperatingTimeToFailure(p, fp, w, gamma).Ok?
    requires 0.0 <= t2 < OperatingTimeToFailure(p, fp, w, gamma).value
    ensures Survival(fp, w, t2) > gamma
  {
    InterpolationOnBorders(p, fp, w, gamma);
    var idx := PercentileIndex(p, gamma).value;
    var t := OperatingTimeToFailure(p, fp, w, gamma).value;
    var j: nat := idx - 1;
    var previous, current := WholeWidths(j, w), WholeWidths(idx, w);
    var sPrevious := p[j];
    assert sPrevious > gamma;
    assert previous >= 0.0 && sPrevious == Survival(fp, w, previous);
    if t2 <= previous {
      SurvivalNonIncreasing(fp, w, t2, previous);
    } else {
      CrossingInside(fp, w, j, idx, previous, current, t2, t, sPrevious, gamma);
    }
  }

  /** Inside the interval that holds the crossing, survival is still above
      gamma before it. */
  lemma {:induction false} CrossingInside(fp: seq<real>, w: real, j: nat, idx: nat, previous: real, current: real,
                                          t2: real, t: real, sPrevious: real, gamma: real)
    requires w > 0.0 && j < |fp| && idx == j + 1 && fp[j] >= 0.0
    requires previous == WholeWidths(j, w) && current == WholeWidths(idx, w)
    requires previous < t2 < t <= current
    requires sPrevious == Survival(fp, w, previous) && sPrevious > gamma
    requires t >= 0.0 && Survival(fp, w, t) == gamma
    ensures t2 >= 0.0 && Survival(fp, w, t2) > gamma
  {
    var slope := fp[j];
    var before, elapsed := t2 - previous, t - previous;
    SurvivalAcross(fp, w, j, idx, previous, current, t2, before, slope);
    SurvivalAcross(fp, w, j, idx, previous, current, t, elapsed, slope);
    DropBefore(slope, before, elapsed, sPrevious, gamma);
  }

  lemma {:induction false} DropBefore(slope: real, before: real, elapsed: real, sPrevious: real, gamma: real)
    requires slope >= 0.0 && 0.0 < before < elapsed
    requires sPrevious > gamma && sPrevious - slope * elapsed == gamma
    ensures sPrevious - slope * before > gamma
  {
    assert slope > 0.0;
    MulLt(slope, before, elapsed);
  }

  /** The interpolation from a border above gamma to the next one, at or
      below gamma. */
  lemma {:induction false} InterpolateAt(p: seq<real>, fp: seq<real>, w: real, gamma: real, j: nat, idx: nat)
    requires w > 0.0 && AreBorderSurvivals(p, fp, w)
    requires idx == j + 1 && idx < |p| && p[idx] <= gamma < p[j]
    ensures Interpolation(fp, w, j, gamma).Ok?
    ensures var t := Interpolation(fp, w, j, gamma).value;
              WholeWidths(j, w) < t <= WholeWidths(idx, w) &&
              (t == WholeWidths(idx, w) <==> p[idx] == gamma) &&
              t >= 0.0 && Survival(fp, w, t) == gamma
  {
    var current, previous := WholeWidths(idx, w), WholeWidths(j, w);
    var sCurrent, sPrevious := p[idx], p[j];
    var slope := fp[j];
    NextWidth(j, idx, w, previous, current);
    SurvivalAcross(fp, w, j, idx, previous, current, current, w, slope);
    var t := InterpolatedTime(w, current, sCurrent, sPrevious, gamma);
    InterpolationIs(fp, w, j, idx, gamma, current, previous, sCurrent, sPrevious, t);
    var elapsed := t - previous;
    Interpolate(w, sPrevious, sCurrent, gamma, previous, current, t, slope, elapsed);
    SurvivalAcross(fp, w, j, idx, previous, current, t, elapsed, slope);
  }

  lemma {:induction false} InterpolationIs(fp: seq<real>, w: real, j: nat, idx: nat, gamma: real,
                                           current: real, previous: real, sCurrent: real, sPrevious: real, t: real)
    requires w > 0.0 && idx == j + 1
    requires current == WholeWidths(idx, w) && previous == WholeWidths(j, w)
    requires current >= 0.0 && previous >= 0.0
    requires sCurrent == Survival(fp, w, current) && sPrevious == Survival(fp, w, previous)
    requires sCurrent - sPrevious != 0.0 && t == InterpolatedTime(w, current, sCurrent, sPrevious, gamma)
    ensures Interpolation(fp, w, j, gamma) == Ok(t)
  {
  }

  /** The next border is one interval length later. */
  lemma {:induction false} NextWidth(j: nat, next: nat, w: real, previous: real, current: real)
    requires next == j + 1 && previous == WholeWidths(j, w) && current == WholeWidths(next, w)
    ensures current == previous + w
  {
  }

  /** Inside interval `j` survival drops linearly, at rate `fp[j]`. */
  lemma {:induction false} SurvivalAcross(fp: seq<real>, w: real, j: nat, next: nat, previous: real, current: real,
                                          t: real, elapsed: real, slope: real)
    requires w > 0.0 && j < |fp| && next == j + 1 && slope == fp[j]
    requires previous == WholeWidths(j, w) && current == WholeWidths(next, w)
    requires previous <= t <= current && elapsed == t - previous
    ensures previous >= 0.0 && t >= 0.0
    ensures Survival(fp, w, t) == Survival(fp, w, previous) - slope * elapsed
  {
    WholeWidthsNonNegative(j, w, previous);
    SurvivalWithinInterval(fp, w, j, t, elapsed);
  }

  /** The interpolated time solves the linear equation of the interval. */
  lemma {:induction false} Interpolate(w: real, sPrevious: real, sCurrent: real, gamma: real,
                                       previous: real, current: real, t: real, slope: real, elapsed: real)
    requires w > 0.0 && sCurrent <= gamma < sPrevious
    requires current == previous + w && sCurrent == sPrevious - slope * w
    requires t == InterpolatedTime(w, current, sCurrent, sPrevious, gamma)
    requires elapsed == t - previous
    ensures previous < t <= current
    ensures t == current <==> sCurrent == gamma
    ensures sPrevious - slope * elapsed == gamma
  {
    var num, den := sCurrent - gamma, sCurrent - sPrevious;
    var ratio := num / den;
    RatioBelowOne(num, den, ratio);
    var q := w * ratio;
    ScaledQuotient(w, num, den, ratio, q);
    ScaledBelow(w, ratio, q);
    var drop := slope * w;
    DropOverElapsed(slope, w, ratio, q, elapsed, drop);
    NegatedScale(drop, den, ratio, num);
  }

  lemma {:induction false} RatioBelowOne(num: real, den: real, ratio: real)
    requires den < num <= 0.0 && ratio == num / den
    ensures 0.0 <= ratio < 1.0 && ratio * den == num
    ensures ratio == 0.0 <==> num == 0.0
  {
    var a, b := -num, -den;
    assert ratio * b == a;
    if ratio < 0.0 {
      MulLe(b, ratio, 0.0);
    }
    if ratio >= 1.0 {
      MulLe(b, 1.0, ratio);
    }
  }

  lemma {:induction false} ScaledQuotient(w: real, num: real, den: real, ratio: real, q: real)
    requires den != 0.0 && ratio == num / den && q == w * ratio
    ensures w * num / den == q
  {
  }

  lemma {:induction false} ScaledBelow(w: real, ratio: real, q: real)
    requires w > 0.0 && 0.0 <= ratio < 1.0 && q == w * ratio
    ensures 0.0 <= q < w
    ensures q == 0.0 <==> ratio == 0.0
  {
    ScaledBelowWidth(w, ratio, q);
    ScaledNonNegative(w, ratio, q);
    ScaledZero(w, ratio, q);
  }

  lemma {:induction false} ScaledBelowWidth(w: real, ratio: real, q: real)
    requires w > 0.0 && ratio < 1.0 && q == w * ratio
    ensures q < w
  {
    MulLt(w, ratio, 1.0);
  }

  lemma {:induction false} ScaledNonNegative(w: real, ratio: real, q: real)
    requires w > 0.0 && 0.0 <= ratio && q == w * ratio
    ensures 0.0 <= q
  {
    MulLe(w, 0.0, ratio);
  }

  lemma {:induction false} ScaledZero(w: real, ratio: real, q: real)
    requires w > 0.0 && q == w * ratio
    ensures q == 0.0 <==> ratio == 0.0
  {
  }

  lemma {:induction false} DropOverElapsed(slope: real, w: real, ratio: real, q: real, elapsed: real, drop: real)
    requires q == w * ratio && elapsed == w - q && drop == slope * w
    ensures slope * elapsed == drop - drop * ratio
  {
  }

  lemma {:induction false} NegatedScale(drop: real, den: real, ratio: real, num: real)
    requires drop == -den && ratio * den == num
    ensures drop * ratio == -num
  {
  }
}
