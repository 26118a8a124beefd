/** Failure-carrying results shared by every component of the flare
    localisation model. A pixel or time value that numpy would hold as NaN
    is `None` in an `Option<real>`. */
module Base {

  /** `None` stands for a NaN pixel (or an absent Python value). */
  datatype Option<+T> = None | Some(value: T)

  /** The exceptions the modelled code can raise, named after their cause. */
  datatype Failure =
    | NoTargetPixelFile        // no usable target pixel file for the flare
    | FlareTimeOutOfRange      // flare time outside the pixel file's time span
    | EmptyReduction           // numpy min/max/argmin over a zero-size array (ValueError)
    | IndexOutOfBounds         // numpy fancy indexing past either end (IndexError)
    | NegativeSampleCount      // numpy.linspace asked for a negative number of samples
    | UnknownConfidenceLevel   // chi-square quantile left unbound for the level
    | EmptyChain               // chain statistics over zero retained samples
    | TooFewSamples            // sample covariance of fewer than two samples
    | FitFailed                // numpy.polyfit raised (e.g. NaN samples break its least squares)
    | MissingArgument          // a call lacks a required positional argument (TypeError)

  /** A value or the failure that stopped its computation; usable with `:-`. */
  datatype Result<+T> = Ok(value: T) | Err(error: Failure) {

    predicate IsFailure() {
      Err?
    }

    function PropagateFailure<U>(): Result<U>
      requires Err?
    {
      Err(error)
    }

    function Extract(): T
      requires Ok?
    {
      value
    }
  }
}
