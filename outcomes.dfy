/** The failures of the reliability pipeline. In the original program each of
    them is a Python exception raised part-way through the calculation; here
    each is a value that the stage returns instead of a result. */
module Outcomes {

  datatype Error =
    | EmptySample              // the mean divides by the length of an empty sample
    | DegenerateRange          // the largest observation is 0, so the border `range` has step 0
    | PercentileUnreachable    // no border survival is at or below gamma: `[0]` of an empty list
    | FlatInterval             // the interpolation divides by a zero survival difference
    | IntervalIndexOutOfRange  // the histogram is indexed outside its bounds
    | ZeroSurvival             // the hazard rate divides by a zero survival probability

  datatype Result<T> = Ok(value: T) | Err(error: Error)

  datatype Outcome = Pass | Fail(error: Error)
}
