# Empirical reliability indicators

This project models the `ReliablityIndicators` class of `lab1/llab1.py` and proves properties of the model. The class computes empirical reliability figures from a sample of times to failure:

- it sorts the sample, then takes its mean and its largest observation;
- it splits `[0, max]` into ten equal intervals with eleven borders;
- it builds a failure-density histogram;
- it integrates that histogram into a piecewise-linear survival curve, the probability of error-free operation;
- it finds the gamma-percentile operating time to failure by linear interpolation between two borders;
- it computes the hazard rate (failure intensity) at a given time.

Times to failure are natural numbers, as in the program's own data. Every derived quantity is an exact Dafny `real`. Python's `t // w` becomes `(t / w).Floor` and `t % w` becomes `t - k * w`. With line 11 read as the instance's own maximum (see "## Findings"), every exception the calculation can raise on a sample of natural numbers with non-negative times becomes a value of `Outcomes.Error`, returned in place of the result:

| error | raised by |
|---|---|
| `EmptySample` | line 10, dividing by an empty length |
| `DegenerateRange` | line 22, a `range` step of 0 |
| `PercentileUnreachable` | line 46, `[0]` of an empty filtered list |
| `FlatInterval` | line 52, dividing by a zero survival difference |
| `IntervalIndexOutOfRange` | line 42, `sequence[-1]` on an empty histogram, reached through line 37 when line 52 evaluates survival at `previous_t_i = -w`; and line 57, indexing the histogram past its end |
| `ZeroSurvival` | line 58, dividing by a zero survival probability |

The modules follow the program's stages:

- `Sample` — sorting, sum, mean, maximum.
- `Partition` — interval length, borders.
- `Histogram` — interval counts and densities, and their integral.
- `SurvivalCurve` — `safely_get` and the probability of error-free operation at any time.
- `EmpiricalSurvival` — that curve for a sample's own histogram.
- `Percentile` — the gamma-percentile operating time.
- `Hazard` — the failure intensity.
- `Reliability` — the class itself.

`Reliability` models the class as a Dafny class with the same fields. Its loops build the three lists the source's generators yield. `RunCalculations` assigns the fields stage by stage, in the source's order: a stage that fails stops there, exactly where Python raises, and leaves the later fields untouched.

Two edge cases of the code are worth spelling out:

- **Hazard rate past the observed range.** The survival formula reads an out-of-range density as 0 through `safely_get`. Line 57 does not: it indexes `failure_probabilities` directly. From `maxTime` on, `int(t // w)` is at least 10, and the lookup raises `IndexError`. `Hazard.SampleFailureIntensityRange` proves that the error occurs exactly when `t >= maxTime`.
- **The percentile when border 0 already qualifies.** Nothing rejects `gamma >= 1`. With `idx = 0`, line 48 sets `previous_t_i` to `-w`, and line 52 evaluates the survival formula there. At `-w`, `int(-w // w)` is -1:
  - the slice `fp[0:-1]` drops the last density;
  - `safely_get(fp, -1, 0)` reads the last density; on an empty histogram this raises `IndexError` at line 42;
  - `-w % w` is 0.

  `Percentile.SurvivalOneWidthBefore` models exactly this. `Percentile.OneWidthBeforeInPython` proves it equal to `SurvivalCurve.PythonSurvival`, the formula under Python's floor division, modulo, negative indexing and slicing at any real time. `Percentile.TargetAtStart` states what the result then is.

## Model

| member | source | states |
|---|---|---|
| Sample.Insert | lab1/llab1.py:7 | inserting into an ascending list keeps it ascending and adds exactly the new element to its multiset |
| Sample.SortAscending | lab1/llab1.py:7 | `sorted(work_times)` is ascending and a permutation of the input |
| Sample.Max | lab1/llab1.py:11 | the maximum is one of the observations and no observation exceeds it |
| Sample.Sum | lab1/llab1.py:10 | `sum(work_times)`, a definition with no contract of its own; bounded by `Sample.SumAtMost` and order-independent by `Sample.SumOfPermutation` |
| Sample.Mean | lab1/llab1.py:10 | `sum / len` of a non-empty sample, a definition with no contract of its own; `Sample.MeanBounds` places it between 0 and the maximum |
| Sample.SumAtMost | lab1/llab1.py:10 | a sample bounded by `b` sums to at most `n * b` |
| Sample.MeanBounds | lab1/llab1.py:10 | the mean `sum / len` of a non-empty sample lies between 0 and the maximum |
| Sample.MeanAtMost | lab1/llab1.py:10 | the mean never exceeds a bound on every observation |
| Sample.MaxOfPermutation | lab1/llab1.py:7-11 | sorting does not change the maximum, so the maximum of the stored (sorted) sample equals that of the list the caller passed |
| Sample.SumOfPermutation | lab1/llab1.py:7-10 | sorting does not change the sum, hence not the mean |
| Partition.IntervalLength | lab1/llab1.py:13 | `max_time / 10`, a definition with no contract of its own; `Partition.BorderAt` and `Partition.BordersEnds` show the ten intervals of this length span `[0, max_time]` |
| Partition.Borders | lab1/llab1.py:21-23 | the border generator yields exactly eleven values |
| Partition.BorderAt | lab1/llab1.py:13-23 | border `j` is `j` interval lengths from 0 |
| Partition.GeneratorYieldsBorder | lab1/llab1.py:22-23 | the value `i / 10` yielded for `i = j * max_time` is border `j` |
| Partition.BordersAt | lab1/llab1.py:21-23 | entry `j` of the list of borders is border `j` |
| Partition.BordersEnds | lab1/llab1.py:21-23 | the first border is 0 and the last is `max_time` |
| Partition.BordersIncrease | lab1/llab1.py:21-23 | for `max_time > 0` the borders strictly increase |
| Histogram.SumReal | lab1/llab1.py:36 | Python's `sum` over a list of densities, a definition with no contract of its own; through `Histogram.Mass`, `Histogram.DensityPrefixMass` shows that the sum of the first `j` densities times `w` is the share of observations in the first `j` intervals |
| Histogram.CountIn | lab1/llab1.py:27 | the filtered list is no longer than the sample |
| Histogram.ZeroCount | lab1/llab1.py:27 | no more observations equal 0 than there are observations |
| Histogram.Density | lab1/llab1.py:28 | a density `len(l) / (n * interval_length)` is never negative |
| Histogram.DensitiesUpTo | lab1/llab1.py:25-28 | the first `j` densities are `j` values |
| Histogram.Densities | lab1/llab1.py:25-28 | the histogram has exactly ten entries |
| Histogram.DensityAt | lab1/llab1.py:25-28 | entry `i` of the histogram is the density of interval `i` |
| Histogram.DensitiesPrefix | lab1/llab1.py:25-28 | the first `j` entries of a longer histogram are the first `j` densities |
| Histogram.DensitiesNonNegative | lab1/llab1.py:25-28 | every entry of the histogram is non-negative |
| Histogram.CountInSplit | lab1/llab1.py:27 | counts over adjacent left-open, right-closed intervals add up |
| Histogram.EmptyInterval | lab1/llab1.py:27 | no observation lies in `(x, x]` |
| Histogram.CountInAllButZeros | lab1/llab1.py:27 | every observation up to `hi` is counted in `(0, hi]` except the zeros |
| Histogram.DensityPrefixMass | lab1/llab1.py:25-28 | the histogram's area over the first `j` intervals is the fraction of observations in `(0, border[j]]` |
| Histogram.MassStep | lab1/llab1.py:25-28 | one more interval adds its density times its length to the area |
| Histogram.ShareStep | lab1/llab1.py:25-28 | one more interval adds the fraction of observations inside it to the share |
| Histogram.PrefixBordersSplit | lab1/llab1.py:27 | `(0, border[j+1]]` splits at `border[j]` into two counted parts |
| Histogram.DensitiesIntegrate | lab1/llab1.py:25-28 | the whole histogram integrates to `(n - zeros) / n`: only observations equal to 0 are lost |
| SurvivalCurve.SafelyGet | lab1/llab1.py:40-42 | the source's conditional itself, with no contract of its own; what its default 0 promises, a survival that stays constant past the last interval, is proved by `SurvivalCurve.SurvivalBeyondRange` |
| SurvivalCurve.IntervalIndex | lab1/llab1.py:36-37 | `int(t // w)` for `t >= 0`, a definition with no contract of its own; `SurvivalCurve.IntervalBracket` shows it is the interval holding `t` |
| SurvivalCurve.Offset | lab1/llab1.py:37 | `t % w` for `t >= 0`, a definition with no contract of its own; `SurvivalCurve.IntervalBracket` places it in `[0, w)` |
| SurvivalCurve.IntervalBracket | lab1/llab1.py:36-37 | `int(t // w) * w <= t < (int(t // w) + 1) * w`, and `0 <= t % w < w` |
| SurvivalCurve.Survival | lab1/llab1.py:34-38 | `_calculate_probability_of_error_free_operation` itself, with no contract of its own; its properties are the lemmas below: `SurvivalAtZero`, `SurvivalAtBorder`, `SurvivalWithinInterval`, `SurvivalBeyondRange` and `SurvivalNonIncreasing` |
| SurvivalCurve.PythonSurvival | lab1/llab1.py:35-42 | the formula as Python evaluates it at any real time: floor division and modulo, a negative index or slice end counting from the end, and `IndexError` outside the list; a definition with no contract of its own, tied to `Survival` by `SurvivalCurve.PythonSurvivalAgrees` |
| SurvivalCurve.PythonSurvivalAgrees | lab1/llab1.py:35-42 | from time 0 on, Python's evaluation of the formula never fails and equals `Survival` |
| SurvivalCurve.Masses | lab1/llab1.py:36-37 | one probability mass (density times width) per interval |
| SurvivalCurve.MassAt | lab1/llab1.py:36-37 | mass `i` is density `i` times the interval length |
| SurvivalCurve.MassPrefix | lab1/llab1.py:36 | `sum(fp[0:j]) * w` is the sum of the first `j` masses |
| SurvivalCurve.SurvivalInUnits | lab1/llab1.py:34-38 | the survival formula at `t = u * w` is the same curve measured in interval widths |
| SurvivalCurve.SurvivalAtWidths | lab1/llab1.py:34-38 | the survival formula at any `t >= 0` is that curve at `t / w` |
| SurvivalCurve.SurvivalAtBorder | lab1/llab1.py:34-38 | at `j` whole widths (`j <= len(fp)`) survival is `1 - w * sum(fp[0:j])`: the `safely_get` term vanishes because `t % w` is 0 |
| SurvivalCurve.SurvivalAtZero | lab1/llab1.py:34-38 | survival at time 0 is 1 |
| SurvivalCurve.SurvivalBeyondRange | lab1/llab1.py:34-42 | from the end of the last interval on, `safely_get` returns 0 and survival is the constant `1 - w * sum(fp)` |
| SurvivalCurve.SurvivalWithinInterval | lab1/llab1.py:34-38 | inside interval `j` survival falls linearly from its value at the interval start, with slope `fp[j]` |
| SurvivalCurve.UnitNonIncreasing | lab1/llab1.py:34-38 | with non-negative masses the curve measured in widths never increases |
| SurvivalCurve.SurvivalNonIncreasing | lab1/llab1.py:34-38 | with non-negative densities survival never increases with time |
| EmpiricalSurvival.SurvivalAtSampleBorder | lab1/llab1.py:30-38 | at border `j` the sample's survival is one minus the fraction of observations that failed in `(0, border[j]]` |
| EmpiricalSurvival.SurvivalAtFirstBorder | lab1/llab1.py:30-38 | the first border survival is 1 |
| EmpiricalSurvival.BorderSurvivalsNonIncreasing | lab1/llab1.py:30-38 | a later border never has a larger survival |
| EmpiricalSurvival.SampleNonIncreasing | lab1/llab1.py:34-38 | the sample's survival curve never increases |
| EmpiricalSurvival.SurvivalBeyondLargest | lab1/llab1.py:34-42 | from the largest observation on, survival is the fraction of observations equal to 0 |
| EmpiricalSurvival.SurvivalAtLastBorder | lab1/llab1.py:30-38 | the last border is `max_time` and its survival is the fraction of zero observations |
| EmpiricalSurvival.SurvivalBounds | lab1/llab1.py:34-38 | every survival probability lies between the fraction of zero observations and 1 |
| Percentile.AtMost | lab1/llab1.py:45 | the `filter` of the survivals at most gamma, a definition with no contract of its own; `Percentile.NoneAtMost` and `Percentile.FirstAtMost` characterize it |
| Percentile.IndexOf | lab1/llab1.py:46 | `.index(x)` is the position of the first occurrence of `x` |
| Percentile.NoneAtMost | lab1/llab1.py:45 | the filtered list is empty exactly when every survival exceeds gamma |
| Percentile.FirstAtMost | lab1/llab1.py:45-46 | the first filtered value occurs in the list at or below gamma, after only values above gamma |
| Percentile.PercentileIndex | lab1/llab1.py:45-46 | `idx` is the first border whose survival is at most gamma; an error exactly when there is none |
| Percentile.SurvivalOneWidthBefore | lab1/llab1.py:48 | the survival formula at `previous_t_i = -w` under Python's index -1, a definition with no contract of its own; `Percentile.OneWidthBeforeInPython` ties it to Python's evaluation, `Percentile.OperatingTimeErrors` states when it fails and `Percentile.TargetAtStart` what the percentile then is |
| Percentile.OneWidthBeforeInPython | lab1/llab1.py:35-42 | at time `-w` Python's evaluation of the survival formula is exactly `SurvivalOneWidthBefore`: an `IndexError` on an empty histogram, otherwise one minus the sum of all densities but the last times `w` |
| Percentile.OperatingTimeToFailure | lab1/llab1.py:44-53 | `_calculate_operating_time_to_failure` itself, with no contract of its own; `Percentile.OperatingTimeErrors`, `Percentile.TargetAtStart`, `Percentile.InterpolationOnBorders` and `Percentile.FirstCrossing` state what it returns |
| Percentile.InterpolatedTime | lab1/llab1.py:50-53 | the interpolation formula, a definition with no contract of its own; `Percentile.Interpolate` shows it solves the interval's linear equation for gamma |
| Percentile.Interpolation | lab1/llab1.py:47-53 | the interpolation for `idx >= 1`, a definition with no contract of its own; `Percentile.InterpolateAt` states its result |
| Percentile.InterpolationFromStart | lab1/llab1.py:47-53 | the interpolation for `idx = 0`, with `previous_t_i = -w`, a definition with no contract of its own; `Percentile.TargetAtStart` states its result |
| Percentile.Interpolate | lab1/llab1.py:50-53 | where survival falls from above gamma to at most gamma across one interval, the interpolated time lies in that interval, is its right end exactly when the right border survival is gamma, and the line reaches gamma there |
| Percentile.OperatingTimeErrors | lab1/llab1.py:44-53 | the percentile is unreachable exactly when every border survival exceeds gamma, and indexes outside the histogram exactly when border 0 qualifies and the histogram is empty |
| Percentile.TargetAtStart | lab1/llab1.py:44-53 | when border 0 qualifies, `idx` is 0; the division fails exactly when the first nine densities sum to 0; otherwise the result `t` satisfies `t * sum(fp[0:-1]) == gamma - 1`, and is 0 exactly when gamma is 1 |
| Percentile.InterpolateAt | lab1/llab1.py:47-53 | between border survivals `S(t0) > gamma >= S(t1)` the interpolation is defined, lies in `(t0, t1]`, equals `t1` exactly when `S(t1) == gamma`, and survival there is exactly gamma |
| Percentile.InterpolationOnBorders | lab1/llab1.py:44-53 | for `idx >= 1` the operating time to failure is defined, lies in `((idx-1) * w, idx * w]`, equals `idx * w` exactly when that border's survival is gamma, and the curve passes through gamma there |
| Percentile.FirstCrossing | lab1/llab1.py:44-53 | with non-negative densities and `idx >= 1`, every time before the operating time to failure has a survival above gamma: the result is the first time the curve reaches gamma |
| Hazard.FailureIntensity | lab1/llab1.py:55-59 | `_calculate_failure_intensity` itself, with no contract of its own; `Hazard.FailureIntensityDefined` states when it fails and what it returns |
| Hazard.IndexBelow | lab1/llab1.py:57 | `int(t // w) < n` exactly when `t < n * w` |
| Hazard.FailureIntensityDefined | lab1/llab1.py:55-59 | the index error occurs exactly when `t` is at or past the end of the last interval; the zero-survival error exactly when survival there is 0 before that; otherwise the rate times survival is the density of `t`'s interval |
| Hazard.FailureIntensityNonNegative | lab1/llab1.py:55-59 | with non-negative densities and positive survival the rate is defined and non-negative |
| Hazard.SampleFailureIntensityRange | lab1/llab1.py:55-59 | for a sample's own histogram the index error occurs exactly from `max_time` on |
| Reliability.ReliabilityIndicators.constructor | lab1/llab1.py:3-7 | stores the three scalars and the sample sorted, an ascending permutation of the argument |
| Reliability.ReliabilityIndicators.CalculateIntervalBorders | lab1/llab1.py:21-23 | the `range` loop yields exactly the eleven borders `j * max_time / 10` |
| Reliability.ReliabilityIndicators.CalculateFailureProbabilities | lab1/llab1.py:25-28 | the loop over the ten intervals yields exactly the histogram of densities |
| Reliability.ReliabilityIndicators.CalculateAllProbabilitiesOfErrorFreeOperation | lab1/llab1.py:30-32 | one survival probability per border, in order |
| Reliability.ReliabilityIndicators.CalculateStatistics | lab1/llab1.py:10-13 | the mean, the largest observation, 10 intervals and their length `max_time / 10` |
| Reliability.ReliabilityIndicators.CalculateCurve | lab1/llab1.py:14-16 | the borders, the histogram and the border survivals; each border survival is one minus the fraction of failures by that border, and they are border survivals in the percentile's sense |
| Reliability.ReliabilityIndicators.CalculateIndicators | lab1/llab1.py:17-19 | the percentile, then the survival at `uptime`, then the hazard rate at `lambda_uptime`, stopping at the first error with the later fields unchanged |
| Reliability.ReliabilityIndicators.CalculateFromCurve | lab1/llab1.py:14-19 | the curve and then the indicators |
| Reliability.ReliabilityIndicators.RunCalculations | lab1/llab1.py:9-19 | the whole pipeline: an empty sample changes nothing; otherwise the statistics are set; a zero maximum stops before the borders; otherwise the curve and the indicators are set as each stage defines them |
| Reliability.StepsBeforeStop | lab1/llab1.py:22 | `range(0, 10 * m + 1, m)` runs while fewer than eleven values have been yielded |
| Reliability.AllBorders | lab1/llab1.py:21-23 | eleven values, each the border of its index, are the list of borders |
| Reliability.DensityFromBorders | lab1/llab1.py:27-28 | the density the loop computes from `interval_borders[i]` and `interval_borders[i + 1]` is the density of interval `i` |
| Reliability.SampleBorderSurvivals | lab1/llab1.py:30-32 | the border survivals are the survivals at whole widths, and each is one minus the fraction of observations failed by its border |
| Reliability.SampleFirstCrossing | lab1/llab1.py:44-53 | the same for a sample's own histogram |
| Reliability.GlobalMaximumLosesObservations | lab1/llab1.py:11 | with the module-level list `[1]` in place of the instance's sample `[5]`, the histogram's area is 0, while with the sample's own maximum it is 1 |

## Findings

| source | as written | input that shows it | evidently intended | confidence | as-written member | corrected member |
|---|---|---|---|---|---|---|
| lab1/llab1.py:11 | `max(work_times)` reads the module-level name `work_times`, not the instance's sample | an instance built with `[5]` while the module-level list is `[1]`: `max_time` is 1, the observation 5 lies past the last border and the histogram's area is 0 instead of 1 (outside the script the name is unbound) | `max(self.work_times)` | high; not executed | Reliability.GlobalMaximumLosesObservations | Reliability.ReliabilityIndicators.CalculateStatistics |

The corrected definition takes the maximum of the instance's own sample. `Sample.MaxOfPermutation` shows that this maximum equals the maximum of the list the caller passed. `Histogram.DensitiesIntegrate` and `EmpiricalSurvival.SurvivalAtLastBorder` then hold: the histogram loses only the observations equal to 0.

## Left out

- The `__main__` block (lines 62-79), with its literal sample and its printing, is presentation only.
- Floating-point rounding of `/`, `//` and `%` is not modelled; the model computes exactly over rationals. A border that would floor into the previous interval in IEEE arithmetic does not arise.
- Samples are natural numbers. A fractional or negative time to failure is not modelled. A fractional maximum would make `range` raise `TypeError`, and that is not modelled either.
- Reliability.ReliabilityIndicators.RunCalculations: requires `uptime >= 0` and `lambdaUptime >= 0`. For a negative time, `int(t // w)` is negative, and Python's slice and `safely_get` then wrap around from the end of the histogram. `SurvivalCurve.PythonSurvival` models that wrap-around at every time. The class's stages, however, use it only at the time `-w` that the percentile reaches, through `Percentile.SurvivalOneWidthBefore` and `Percentile.OneWidthBeforeInPython`.
- Reliability.ReliabilityIndicators.CalculateIndicators: has the same non-negativity precondition on `uptime` and `lambdaUptime`, for the same reason.
- Before `run_calculations`, reading a result attribute raises `AttributeError` in Python. The model's constructor gives the results the values 0 and empty instead.
- In the model, `RunCalculations` first tests the sample for emptiness and then calls its stage methods. Python computes the same stages inline. The fields assigned before a failure are the same in both.
