/** The failure-density histogram: one density per interval of the partition. */
module Histogram {
  import opened Partition

  /** Number of observations `x` with `lo < x <= hi` (the length of the
      filtered list in the source). */
  function CountIn(s: seq<nat>, lo: real, hi: real): (c: nat)
    ensures c <= |s|
  {
    if s == [] then 0
    else (if lo < s[0] as real <= hi then 1 else 0) + CountIn(s[1..], lo, hi)
  }

  /** Number of observations equal to 0; they fall in no interval. */
  function ZeroCount(s: seq<nat>): (z: nat)
    ensures z <= |s|
  {
    if s == [] then 0 else (if s[0] == 0 then 1 else 0) + ZeroCount(s[1..])
  }

  function SumReal(s: seq<real>): real
  {
    if s == [] then 0.0 else SumReal(s[..|s| - 1]) + s[|s| - 1]
  }

  /** The density of interval `i`: the share of the `n` observations lying in
      `(border[i], border[i + 1]]`, per unit of time. */
  function Density(s: seq<nat>, maxTime: nat, i: nat): (d: real)
    requires |s| > 0 && maxTime > 0
    ensures d >= 0.0
  {
    PositiveScale(|s|, IntervalLength(maxTime));
    NonNegativeRatio(CountIn(s, Border(maxTime, i), Border(maxTime, i + 1)) as real,
                     |s| as real * IntervalLength(maxTime));
    CountIn(s, Border(maxTime, i), Border(maxTime, i + 1)) as real / (|s| as real * IntervalLength(maxTime))
  }

  /** The densities of the first `j` intervals, in order. */
  function DensitiesUpTo(s: seq<nat>, maxTime: nat, j: nat): (fp: seq<real>)
    requires |s| > 0 && maxTime > 0
    ensures |fp| == j
  {
    if j == 0 then [] else DensitiesUpTo(s, maxTime, j - 1) + [Density(s, maxTime, j - 1)]
  }

  /** The whole histogram (`failure_probabilities` in the source). */
  function Densities(s: seq<nat>, maxTime: nat): (fp: seq<real>)
    requires |s| > 0 && maxTime > 0
    ensures |fp| == NUM_OF_INTERVALS
  {
    DensitiesUpTo(s, maxTime, NUM_OF_INTERVALS)
  }

  lemma {:induction false} PositiveScale(n: nat, w: real)
    requires n > 0 && w > 0.0
    ensures n as real * w > 0.0
  {
  }

  lemma {:induction false} NonNegativeRatio(a: real, d: real)
    requires a >= 0.0 && d > 0.0
    ensures a / d >= 0.0
  {
  }

  lemma {:induction false} SumRealPrefix(s: seq<real>, j: nat)
    requires j < |s|
    ensures SumReal(s[..j + 1]) == SumReal(s[..j]) + s[j]
  {
    assert s[..j + 1][..j] == s[..j];
  }

  lemma {:induction false} SumRealAppend(s: seq<real>, x: real)
    ensures SumReal(s + [x]) == SumReal(s) + x
  {
    assert (s + [x])[..|s|] == s;
  }

  /** Element `i` of the first `j` densities is the density of interval `i`. */
  lemma {:induction false} DensityAt(s: seq<nat>, maxTime: nat, j: nat, i: nat)
    requires |s| > 0 && maxTime > 0 && i < j
    ensures DensitiesUpTo(s, maxTime, j)[i] == Density(s, maxTime, i)
  {
    if i < j - 1 {
      DensityAt(s, maxTime, j - 1, i);
    }
  }

  /** Taking a prefix of the densities is computing fewer of them. */
  lemma {:induction false} DensitiesPrefix(s: seq<nat>, maxTime: nat, k: nat, j: nat)
    requires |s| > 0 && maxTime > 0 && j <= k
    ensures DensitiesUpTo(s, maxTime, k)[..j] == DensitiesUpTo(s, maxTime, j)
  {
    if j < k {
      DensitiesPrefix(s, maxTime, k - 1, j);
      assert DensitiesUpTo(s, maxTime, k)[..k - 1] == DensitiesUpTo(s, maxTime, k - 1);
    }
  }

  /** Every density is non-negative. */
  lemma {:induction false} DensitiesNonNegative(s: seq<nat>, maxTime: nat)
    requires |s| > 0 && maxTime > 0
    ensures forall i :: 0 <= i < |Densities(s, maxTime)| ==> Densities(s, maxTime)[i] >= 0.0
  {
    forall i | 0 <= i < NUM_OF_INTERVALS
      ensures Densities(s, maxTime)[i] >= 0.0
    {
      DensityAt(s, maxTime, NUM_OF_INTERVALS, i);
    }
  }

  /** Adjacent left-open, right-closed intervals add up. */
  lemma {:induction false} CountInSplit(s: seq<nat>, a: real, b: real, c: real)
    requires a <= b <= c
    ensures CountIn(s, a, b) + CountIn(s, b, c) == CountIn(s, a, c)
  {
    if s != [] {
      CountInSplit(s[1..], a, b, c);
    }
  }

  lemma {:induction false} EmptyInterval(s: seq<nat>, x: real)
    ensures CountIn(s, x, x) == 0
  {
    if s != [] {
      EmptyInterval(s[1..], x);
    }
  }

  /** Every observation up to `hi` is counted in `(0, hi]` except the zeros. */
  lemma {:induction false} CountInAllButZeros(s: seq<nat>, hi: real)
    requires forall i :: 0 <= i < |s| ==> s[i] as real <= hi
    ensures CountIn(s, 0.0, hi) + ZeroCount(s) == |s|
  {
    if s != [] {
      CountInAllButZeros(s[1..], hi);
    }
  }

  /** The histogram's mass (area) over the first `j` intervals. */
  function Mass(s: seq<nat>, maxTime: nat, j: nat): real
    requires |s| > 0 && maxTime > 0
  {
    SumReal(DensitiesUpTo(s, maxTime, j)) * IntervalLength(maxTime)
  }

  /** The fraction of the observations lying in `(0, border[j]]`. */
  function Share(s: seq<nat>, maxTime: nat, j: nat): real
    requires |s| > 0
  {
    CountIn(s, 0.0, Border(maxTime, j)) as real / |s| as real
  }

  /** The histogram's mass over the first `j` intervals is the fraction of
      observations in `(0, border[j]]`. */
  lemma {:induction false} DensityPrefixMass(s: seq<nat>, maxTime: nat, j: nat)
    requires |s| > 0 && maxTime > 0
    ensures Mass(s, maxTime, j) == Share(s, maxTime, j)
  {
    if j == 0 {
      MassAtZero(s, maxTime);
    } else {
      var k: nat := j - 1;
      DensityPrefixMass(s, maxTime, k);
      MassStep(s, maxTime, k, j);
      ShareStep(s, maxTime, k, j);
    }
  }

  lemma {:induction false} MassAtZero(s: seq<nat>, maxTime: nat)
    requires |s| > 0 && maxTime > 0
    ensures Mass(s, maxTime, 0) == Share(s, maxTime, 0)
  {
    BordersEnds(maxTime);
    EmptyInterval(s, 0.0);
    assert 0.0 / |s| as real == 0.0;
  }

  /** One more interval adds its density times the interval length to the mass. */
  lemma {:induction false} MassStep(s: seq<nat>, maxTime: nat, k: nat, j: nat)
    requires |s| > 0 && maxTime > 0 && j == k + 1
    ensures Mass(s, maxTime, j) == Mass(s, maxTime, k) + Density(s, maxTime, k) * IntervalLength(maxTime)
  {
    assert DensitiesUpTo(s, maxTime, j) == DensitiesUpTo(s, maxTime, k) + [Density(s, maxTime, k)];
    SumRealAppend(DensitiesUpTo(s, maxTime, k), Density(s, maxTime, k));
    Distribute(SumReal(DensitiesUpTo(s, maxTime, k)), Density(s, maxTime, k), IntervalLength(maxTime));
  }

  lemma {:induction false} Distribute(x: real, y: real, w: real)
    ensures (x + y) * w == x * w + y * w
  {
  }

  /** One more interval adds the fraction of observations inside it to the share. */
  lemma {:induction false} ShareStep(s: seq<nat>, maxTime: nat, k: nat, j: nat)
    requires |s| > 0 && maxTime > 0 && j == k + 1
    ensures Share(s, maxTime, j) == Share(s, maxTime, k) + Density(s, maxTime, k) * IntervalLength(maxTime)
  {
    var before, here, total := CountIn(s, 0.0, Border(maxTime, k)), CountIn(s, Border(maxTime, k), Border(maxTime, j)),
                               CountIn(s, 0.0, Border(maxTime, j));
    var n, w, d := |s|, IntervalLength(maxTime), Density(s, maxTime, k);
    PrefixBordersSplit(s, maxTime, k, j);
    ShareIs(s, maxTime, k, before, n);
    ShareIs(s, maxTime, j, total, n);
    DensityIs(s, maxTime, k, j, here, n, w, d);
    ShareOfInterval(before, here, total, n, w, d);
  }

  lemma {:induction false} ShareIs(s: seq<nat>, maxTime: nat, j: nat, count: nat, n: nat)
    requires n == |s| && n > 0 && count == CountIn(s, 0.0, Border(maxTime, j))
    ensures Share(s, maxTime, j) == count as real / n as real
  {
  }

  lemma {:induction false} DensityIs(s: seq<nat>, maxTime: nat, k: nat, j: nat, here: nat, n: nat, w: real, d: real)
    requires |s| > 0 && maxTime > 0 && j == k + 1
    requires here == CountIn(s, Border(maxTime, k), Border(maxTime, j)) && n == |s| && w == IntervalLength(maxTime)
    requires d == Density(s, maxTime, k)
    ensures d == here as real / (n as real * w)
  {
  }

  /** `(0, border[j]]` splits at the previous border. */
  lemma {:induction false} PrefixBordersSplit(s: seq<nat>, maxTime: nat, k: nat, j: nat)
    requires maxTime > 0 && j == k + 1
    ensures CountIn(s, 0.0, Border(maxTime, k)) + CountIn(s, Border(maxTime, k), Border(maxTime, j))
              == CountIn(s, 0.0, Border(maxTime, j))
  {
    BordersEnds(maxTime);
    BordersIncrease(maxTime, k, j);
    if k > 0 {
      BordersIncrease(maxTime, 0, k);
    }
    CountInSplit(s, 0.0, Border(maxTime, k), Border(maxTime, j));
  }

  lemma {:induction false} ShareOfInterval(before: nat, here: nat, total: nat, n: nat, w: real, d: real)
    requires n > 0 && w > 0.0
    requires before + here == total
    requires d == here as real / (n as real * w)
    ensures total as real / n as real == before as real / n as real + d * w
  {
    assert d * w == here as real / n as real;
  }

  /** The histogram integrates to the fraction of observations in `(0, maxTime]`:
      only the zero-valued observations are lost. */
  lemma {:induction false} DensitiesIntegrate(s: seq<nat>, maxTime: nat)
    requires |s| > 0 && maxTime > 0
    requires forall i :: 0 <= i < |s| ==> s[i] <= maxTime
    ensures Mass(s, maxTime, NUM_OF_INTERVALS) == (|s| - ZeroCount(s)) as real / |s| as real
  {
    DensityPrefixMass(s, maxTime, NUM_OF_INTERVALS);
    BordersEnds(maxTime);
    CountInAllButZeros(s, maxTime as real);
    var inRange := CountIn(s, 0.0, Border(maxTime, NUM_OF_INTERVALS));
    assert inRange == |s| - ZeroCount(s);
  }
}
