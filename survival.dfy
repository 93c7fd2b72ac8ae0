/** The empirical survival (reliability) function: the histogram of failure
    densities integrated piecewise-linearly from time 0. */
module SurvivalCurve {
  import opened Outcomes
  import opened Histogram

  function Min(a: nat, b: nat): nat
  {
    if a <= b then a else b
  }

  /** `seq[index]` when the index is in range, `default` otherwise. */
  function SafelyGet(s: seq<real>, index: nat, default: real): real
  {
    if index < |s| then s[index] else default
  }

  /** `int(t // w)` for `t >= 0` and `w > 0`: the interval of width `w` holding `t`. */
  function IntervalIndex(w: real, t: real): nat
    requires w > 0.0 && t >= 0.0
  {
    NonNegativeRatio(t, w);
    (t / w).Floor
  }

  /** `t % w` for `t >= 0` and `w > 0`: how far `t` lies into its interval. */
  function Offset(w: real, t: real): real
    requires w > 0.0 && t >= 0.0
  {
    t - IntervalIndex(w, t) as real * w
  }

  /** The probability of error-free operation up to `time`: one minus the
      histogram's mass over the whole intervals before `time` and over the
      part of the interval that holds it. Past the last interval the density
      reads as 0. */
  function Survival(fp: seq<real>, w: real, time: real): real
    requires w > 0.0 && time >= 0.0
  {
    var k := IntervalIndex(w, time);
    1.0 - (SumReal(fp[..Min(k, |fp|)]) * w + SafelyGet(fp, k, 0.0) * Offset(w, time))
  }

  // ---------------------------------------------------------------------
  // The same curve with time measured in interval widths. `Survival` is
  // proved equal to it once; the properties are proved on this form.
  // ---------------------------------------------------------------------

  /** The probability mass of every interval: density times width. */
  function Masses(fp: seq<real>, w: real): (m: seq<real>)
    ensures |m| == |fp|
  {
    if fp == [] then [] else Masses(fp[..|fp| - 1], w) + [fp[|fp| - 1] * w]
  }

  /** How far `u` lies past the last whole number. */
  function Fraction(u: real): real
  {
    u - u.Floor as real
  }

  /** Survival after `u` interval widths, for interval masses `m`. */
  function UnitSurvival(m: seq<real>, u: real): real
    requires u >= 0.0
  {
    var k: nat := u.Floor;
    1.0 - (SumReal(m[..Min(k, |m|)]) + SafelyGet(m, k, 0.0) * Fraction(u))
  }

  lemma {:induction false} MassAt(fp: seq<real>, w: real, i: nat)
    requires i < |fp|
    ensures Masses(fp, w)[i] == fp[i] * w
    decreases |fp|
  {
    if i < |fp| - 1 {
      MassAt(fp[..|fp| - 1], w, i);
    }
  }

  /** The first `j` masses add up to `w` times the first `j` densities. */
  lemma {:induction false} MassPrefix(fp: seq<real>, w: real, j: nat)
    requires j <= |fp|
    ensures SumReal(Masses(fp, w)[..j]) == SumReal(fp[..j]) * w
  {
    var m := Masses(fp, w);
    if j == 0 {
      assert m[..0] == [] && fp[..0] == [];
    } else {
      MassPrefix(fp, w, j - 1);
      SumRealPrefix(m, j - 1);
      SumRealPrefix(fp, j - 1);
      MassAt(fp, w, j - 1);
      AddScaled(SumReal(fp[..j - 1]), fp[j - 1], w);
    }
  }

  lemma {:induction false} AddScaled(a: real, f: real, w: real)
    ensures a * w + f * w == (a + f) * w
  {
  }

  lemma {:induction false} MulLe(a: real, x: real, y: real)
    requires a >= 0.0 && x <= y
    ensures x * a <= y * a
  {
    assert (y - x) * a >= 0.0;
  }

  lemma {:induction false} MulLt(a: real, x: real, y: real)
    requires a > 0.0 && x < y
    ensures x * a < y * a
  {
    assert (y - x) * a > 0.0;
  }

  /** The source's formula is the unit-width curve over the interval masses. */
  lemma {:induction false} SurvivalInUnits(fp: seq<real>, w: real, t: real, u: real)
    requires w > 0.0 && t >= 0.0 && u >= 0.0 && t == u * w
    ensures Survival(fp, w, t) == UnitSurvival(Masses(fp, w), u)
  {
    Quotient(t, w, u);
    var k := IntervalIndex(w, t);
    MassPrefix(fp, w, Min(k, |fp|));
    PartialMass(fp, w, t, k);
  }

  lemma {:induction false} Quotient(t: real, w: real, u: real)
    requires w > 0.0 && t == u * w
    ensures t / w == u
  {
  }

  lemma {:induction false} QuotientTimes(t: real, w: real)
    requires w > 0.0
    ensures t == (t / w) * w
  {
  }

  lemma {:induction false} PartialMass(fp: seq<real>, w: real, t: real, k: nat)
    requires w > 0.0 && t >= 0.0 && k == IntervalIndex(w, t)
    ensures SafelyGet(fp, k, 0.0) * Offset(w, t) == SafelyGet(Masses(fp, w), k, 0.0) * Fraction(t / w)
  {
    if k < |fp| {
      MassAt(fp, w, k);
      var f, q, x, mass := fp[k], t / w, k as real, Masses(fp, w)[k];
      var offset, frac := Offset(w, t), Fraction(q);
      RescaleOffset(f, w, t, q, x, mass, offset, frac);
    }
  }

  /** Time `offset` into an interval is the fraction `frac` of its width. */
  lemma {:induction false} RescaleOffset(f: real, w: real, t: real, q: real, x: real, mass: real, offset: real, frac: real)
    requires w > 0.0 && q == t / w && mass == f * w
    requires offset == t - x * w && frac == q - x
    ensures f * offset == mass * frac
  {
    assert q * w == t;
    assert offset == frac * w;
  }

  /** At a whole number `j` of widths the curve is one minus the first `j` masses. */
  lemma {:induction false} UnitAtWhole(m: seq<real>, j: nat)
    ensures UnitSurvival(m, j as real) == 1.0 - SumReal(m[..Min(j, |m|)])
  {
    assert (j as real).Floor == j;
  }

  /** Inside interval `j` the curve falls linearly by `m[j]` per width. */
  lemma {:induction false} UnitWithin(m: seq<real>, j: nat, u: real, d: real)
    requires j < |m| && j as real <= u <= j as real + 1.0 && d == u - j as real
    ensures UnitSurvival(m, u) == UnitSurvival(m, j as real) - m[j] * d
  {
    UnitAtWhole(m, j);
    if u == j as real + 1.0 {
      var next: nat := j + 1;
      UnitAtWhole(m, next);
      SumRealPrefix(m, j);
    } else {
      assert u.Floor == j;
    }
  }

  /** From `|m|` widths on, the curve stays at one minus the total mass. */
  lemma {:induction false} UnitBeyond(m: seq<real>, u: real)
    requires u >= |m| as real
    ensures UnitSurvival(m, u) == 1.0 - SumReal(m)
  {
    assert m[..|m|] == m;
  }

  /** Prefix sums of non-negative values never decrease. */
  lemma {:induction false} PrefixSumMonotone(m: seq<real>, i: nat, j: nat)
    requires i <= j <= |m|
    requires forall x :: 0 <= x < |m| ==> m[x] >= 0.0
    ensures SumReal(m[..i]) <= SumReal(m[..j])
    decreases j - i
  {
    if i < j {
      PrefixSumMonotone(m, i, j - 1);
      SumRealPrefix(m, j - 1);
    }
  }

  /** The (clipped) prefix one interval longer adds the (safely read) next value. */
  lemma {:induction false} NextPrefix(m: seq<real>, k: nat, next: nat)
    requires next == k + 1
    ensures SumReal(m[..Min(next, |m|)]) == SumReal(m[..Min(k, |m|)]) + SafelyGet(m, k, 0.0)
  {
    if k < |m| {
      SumRealPrefix(m, k);
    }
  }

  /** At whole widths the curve never increases. */
  lemma {:induction false} UnitWholeNonIncreasing(m: seq<real>, i: nat, j: nat)
    requires i <= j
    requires forall x :: 0 <= x < |m| ==> m[x] >= 0.0
    ensures UnitSurvival(m, j as real) <= UnitSurvival(m, i as real)
  {
    UnitAtWhole(m, i);
    UnitAtWhole(m, j);
    PrefixSumMonotone(m, Min(i, |m|), Min(j, |m|));
  }

  /** The curve at `u` lies between its values at the whole widths around `u`. */
  lemma {:induction false} UnitBetween(m: seq<real>, u: real, k: nat, next: nat)
    requires u >= 0.0 && k == u.Floor && next == k + 1
    requires forall x :: 0 <= x < |m| ==> m[x] >= 0.0
    ensures UnitSurvival(m, next as real) <= UnitSurvival(m, u) <= UnitSurvival(m, k as real)
  {
    var mass, part := SafelyGet(m, k, 0.0), Fraction(u);
    UnitParts(m, u, k, mass, part);
    UnitNext(m, k, next, mass);
    PartOfMass(mass, part);
  }

  /** Within its interval the curve has dropped by the part of the interval's mass. */
  lemma {:induction false} UnitParts(m: seq<real>, u: real, k: nat, mass: real, part: real)
    requires u >= 0.0 && k == u.Floor && mass == SafelyGet(m, k, 0.0) && part == Fraction(u)
    ensures 0.0 <= part < 1.0
    ensures UnitSurvival(m, u) == UnitSurvival(m, k as real) - mass * part
  {
    UnitAtWhole(m, k);
  }

  /** One whole width further the curve has dropped by the interval's mass. */
  lemma {:induction false} UnitNext(m: seq<real>, k: nat, next: nat, mass: real)
    requires next == k + 1 && mass == SafelyGet(m, k, 0.0)
    ensures UnitSurvival(m, next as real) == UnitSurvival(m, k as real) - mass
  {
    UnitAtWhole(m, k);
    UnitAtWhole(m, next);
    NextPrefix(m, k, next);
  }

  /** A part of a non-negative mass lies between 0 and the whole mass. */
  lemma {:induction false} PartOfMass(mass: real, part: real)
    requires mass >= 0.0 && 0.0 <= part < 1.0
    ensures 0.0 <= mass * part <= mass
  {
    MulLe(mass, 0.0, part);
    MulLe(mass, part, 1.0);
  }

  /** A larger part of a non-negative mass is no smaller. */
  lemma {:induction false} LargerPart(mass: real, part1: real, part2: real)
    requires mass >= 0.0 && part1 <= part2
    ensures mass * part1 <= mass * part2
  {
    assert mass * (part2 - part1) >= 0.0;
  }

  /** With non-negative masses the curve never increases. */
  lemma {:induction false} UnitNonIncreasing(m: seq<real>, u1: real, u2: real)
    requires 0.0 <= u1 <= u2
    requires forall x :: 0 <= x < |m| ==> m[x] >= 0.0
    ensures UnitSurvival(m, u2) <= UnitSurvival(m, u1)
  {
    var k1: nat := u1.Floor;
    var k2: nat := u2.Floor;
    if k1 == k2 {
      var mass, part1, part2 := SafelyGet(m, k1, 0.0), Fraction(u1), Fraction(u2);
      LargerPart(mass, part1, part2);
    } else {
      var next1: nat := k1 + 1;
      var next2: nat := k2 + 1;
      UnitBetween(m, u1, k1, next1);
      UnitBetween(m, u2, k2, next2);
      UnitWholeNonIncreasing(m, next1, k2);
    }
  }

  lemma {:induction false} MassesNonNegative(fp: seq<real>, w: real)
    requires w > 0.0
    requires forall x :: 0 <= x < |fp| ==> fp[x] >= 0.0
    ensures forall x :: 0 <= x < |Masses(fp, w)| ==> Masses(fp, w)[x] >= 0.0
  {
    forall x | 0 <= x < |fp|
      ensures Masses(fp, w)[x] >= 0.0
    {
      MassAt(fp, w, x);
      MulLe(w, 0.0, fp[x]);
    }
  }

  /** `int(t // w)` is the interval that holds `t`, and `t % w` is how far
      into that interval `t` lies. */
  lemma {:induction false} IntervalBracket(w: real, t: real)
    requires w > 0.0 && t >= 0.0
    ensures IntervalIndex(w, t) as real * w <= t < (IntervalIndex(w, t) + 1) as real * w
    ensures 0.0 <= Offset(w, t) < w
  {
    var k := IntervalIndex(w, t);
    assert k as real <= t / w < (k + 1) as real;
    ScaledBounds(t, w, k as real, (k + 1) as real);
  }

  lemma {:induction false} ScaledBounds(t: real, w: real, x: real, y: real)
    requires w > 0.0 && x <= t / w < y
    ensures x * w <= t < y * w
  {
    var q := t / w;
    assert q * w == t;
    MulLe(w, x, q);
    MulLt(w, q, y);
  }

  lemma {:induction false} AtLeastInWidths(t: real, w: real, x: real)
    requires w > 0.0 && x * w <= t
    ensures x <= t / w
  {
    var q := t / w;
    assert q * w == t;
    if q < x {
      MulLt(w, q, x);
    }
  }

  lemma {:induction false} AtMostInWidths(t: real, w: real, x: real)
    requires w > 0.0 && t <= x * w
    ensures t / w <= x
  {
    var q := t / w;
    assert q * w == t;
    if x < q {
      MulLt(w, x, q);
    }
  }

  lemma {:induction false} WidthsMonotone(t1: real, t2: real, w: real)
    requires w > 0.0 && t1 <= t2
    ensures t1 / w <= t2 / w
  {
    var q := t1 / w;
    assert q * w == t1;
    AtMostInWidths(t1, w, t2 / w);
  }

  /** At every border survival is `1 - w * sum(fp[..j])`. */
  lemma {:induction false} SurvivalAtBorder(fp: seq<real>, w: real, j: nat)
    requires w > 0.0 && j <= |fp|
    ensures Survival(fp, w, j as real * w) == 1.0 - w * SumReal(fp[..j])
  {
    SurvivalAtWholeWidths(fp, w, j);
    UnitMassesAtWhole(fp, w, j);
  }

  lemma {:induction false} SurvivalAtWholeWidths(fp: seq<real>, w: real, j: nat)
    requires w > 0.0
    ensures j as real * w >= 0.0
    ensures Survival(fp, w, j as real * w) == UnitSurvival(Masses(fp, w), j as real)
  {
    MulLe(w, 0.0, j as real);
    SurvivalInUnits(fp, w, j as real * w, j as real);
  }

  lemma {:induction false} UnitMassesAtWhole(fp: seq<real>, w: real, j: nat)
    requires j <= |fp|
    ensures UnitSurvival(Masses(fp, w), j as real) == 1.0 - w * SumReal(fp[..j])
  {
    UnitAtWhole(Masses(fp, w), j);
    MassPrefix(fp, w, j);
  }

  /** Nothing has failed at time 0. */
  lemma {:induction false} SurvivalAtZero(fp: seq<real>, w: real)
    requires w > 0.0
    ensures Survival(fp, w, 0.0) == 1.0
  {
    SurvivalAtBorder(fp, w, 0);
    assert fp[..0] == [];
  }

  /** Survival at `t` as the unit-width curve at `t / w`. */
  lemma {:induction false} SurvivalAtWidths(fp: seq<real>, w: real, t: real)
    requires w > 0.0 && t >= 0.0
    ensures t / w >= 0.0
    ensures Survival(fp, w, t) == UnitSurvival(Masses(fp, w), t / w)
  {
    NonNegativeRatio(t, w);
    QuotientTimes(t, w);
    SurvivalInUnits(fp, w, t, t / w);
  }

  /** From the end of the last interval on, survival is the constant
      `1 - w * sum(fp)`: out-of-range densities read as 0. */
  lemma {:induction false} SurvivalBeyondRange(fp: seq<real>, w: real, t: real)
    requires w > 0.0 && t >= |fp| as real * w
    ensures Survival(fp, w, t) == 1.0 - w * SumReal(fp)
  {
    MulLe(w, 0.0, |fp| as real);
    SurvivalAtWidths(fp, w, t);
    AtLeastInWidths(t, w, |fp| as real);
    UnitMassesBeyond(fp, w, t / w);
  }

  lemma {:induction false} UnitMassesBeyond(fp: seq<real>, w: real, u: real)
    requires u >= |fp| as real
    ensures UnitSurvival(Masses(fp, w), u) == 1.0 - w * SumReal(fp)
  {
    UnitBeyond(Masses(fp, w), u);
    MassPrefix(fp, w, |fp|);
    assert fp[..|fp|] == fp;
    assert Masses(fp, w)[..|fp|] == Masses(fp, w);
  }

  /** Inside interval `j`, `elapsed` time units after its left border,
      survival has fallen linearly by `fp[j] * elapsed` (up to and including
      the interval's right end). */
  lemma {:induction false} SurvivalWithinInterval(fp: seq<real>, w: real, j: nat, t: real, elapsed: real)
    requires w > 0.0 && j < |fp|
    requires j as real * w <= t <= (j + 1) as real * w
    requires elapsed == t - j as real * w
    ensures Survival(fp, w, t) == Survival(fp, w, j as real * w) - fp[j] * elapsed
  {
    SurvivalAtWholeWidths(fp, w, j);
    SurvivalAtWidths(fp, w, t);
    WithinInWidths(t, w, j);
    var u := t / w;
    MassesWithin(fp, w, j, t, u, elapsed);
  }

  lemma {:induction false} WithinInWidths(t: real, w: real, j: nat)
    requires w > 0.0
    requires j as real * w <= t <= (j + 1) as real * w
    ensures j as real <= t / w <= j as real + 1.0
  {
    AtLeastInWidths(t, w, j as real);
    AtMostInWidths(t, w, (j + 1) as real);
  }

  lemma {:induction false} MassesWithin(fp: seq<real>, w: real, j: nat, t: real, u: real, elapsed: real)
    requires w > 0.0 && j < |fp| && u == t / w
    requires j as real <= u <= j as real + 1.0
    requires elapsed == t - j as real * w
    ensures UnitSurvival(Masses(fp, w), u) == UnitSurvival(Masses(fp, w), j as real) - fp[j] * elapsed
  {
    var d := u - j as real;
    UnitWithin(Masses(fp, w), j, u, d);
    MassAt(fp, w, j);
    var f, x, mass := fp[j], j as real, Masses(fp, w)[j];
    RescaleOffset(f, w, t, u, x, mass, elapsed, d);
  }

  /** With non-negative densities survival never increases with time. */
  lemma {:induction false} SurvivalNonIncreasing(fp: seq<real>, w: real, t1: real, t2: real)
    requires w > 0.0 && 0.0 <= t1 <= t2
    requires forall x :: 0 <= x < |fp| ==> fp[x] >= 0.0
    ensures Survival(fp, w, t2) <= Survival(fp, w, t1)
  {
    SurvivalAtWidths(fp, w, t1);
    SurvivalAtWidths(fp, w, t2);
    WidthsMonotone(t1, t2, w);
    MassesNonNegative(fp, w);
    UnitNonIncreasing(Masses(fp, w), t1 / w, t2 / w);
  }

  // ---------------------------------------------------------------------
  // The survival formula as Python evaluates it at any real time, negative
  // ones included: `//` and `%` floor, a negative index or slice end counts
  // from the end of the list, and an index outside it raises `IndexError`.
  // ---------------------------------------------------------------------

  /** Python's `t // w` for `w > 0`, as an integer. */
  function PythonFloorDiv(t: real, w: real): int
    requires w > 0.0
  {
    (t / w).Floor
  }

  /** Python's `t % w` for `w > 0`: what is left after `t // w` whole widths. */
  function PythonMod(t: real, w: real): real
    requires w > 0.0
  {
    t - PythonFloorDiv(t, w) as real * w
  }

  /** Python's `s[k]`. */
  function PythonIndex(s: seq<real>, k: int): Result<real>
  {
    if 0 <= k < |s| then Ok(s[k])
    else if -|s| <= k < 0 then Ok(s[|s| + k])
    else Err(IntervalIndexOutOfRange)
  }

  /** Python's `s[0:k]`. */
  function PythonSlice(s: seq<real>, k: int): seq<real>
  {
    if k >= 0 then s[..Min(k, |s|)]
    else if -|s| <= k then s[..|s| + k]
    else []
  }

  /** `safely_get(s, k, default)` for any integer `k`: only an index at or past
      the end takes the default; any other goes to Python's `s[k]`. */
  function PythonSafelyGet(s: seq<real>, k: int, default: real): Result<real>
  {
    if k < |s| then PythonIndex(s, k) else Ok(default)
  }

  /** `_calculate_probability_of_error_free_operation(time)` for any real time. */
  function PythonSurvival(fp: seq<real>, w: real, time: real): Result<real>
    requires w > 0.0
  {
    var k := PythonFloorDiv(time, w);
    match PythonSafelyGet(fp, k, 0.0)
    case Err(e) => Err(e)
    case Ok(v) => Ok(1.0 - (SumReal(PythonSlice(fp, k)) * w + v * PythonMod(time, w)))
  }

  /** From time 0 on, Python's evaluation never fails and gives `Survival`. */
  lemma {:induction false} PythonSurvivalAgrees(fp: seq<real>, w: real, time: real)
    requires w > 0.0 && time >= 0.0
    ensures PythonSurvival(fp, w, time) == Ok(Survival(fp, w, time))
  {
    var k := IntervalIndex(w, time);
    assert PythonFloorDiv(time, w) == k;
    var v, sum, offset := SafelyGet(fp, k, 0.0), SumReal(fp[..Min(k, |fp|)]), Offset(w, time);
    assert PythonSafelyGet(fp, k, 0.0) == Ok(v);
    assert SumReal(PythonSlice(fp, k)) == sum;
    assert PythonMod(time, w) == offset;
    SameFormula(PythonSurvival(fp, w, time).value, Survival(fp, w, time), sum, w, v, offset);
  }

  lemma {:induction false} SameFormula(r1: real, r2: real, sum: real, w: real, v: real, offset: real)
    requires r1 == 1.0 - (sum * w + v * offset) && r2 == 1.0 - (sum * w + v * offset)
    ensures r1 == r2
  {
  }
}
