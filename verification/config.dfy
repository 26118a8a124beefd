/** The pipeline's constants as one immutable record, passed explicitly to
    every component that needs them instead of living in global classes. */
module Config {

  datatype Settings = Settings(
    cadencesPerHour: int,      // Kepler long cadence: one exposure every 30 minutes
    excludedBefore: int,       // cadences left out of the baseline fit before the flare
    excludedAfter: int,        // cadences left out of the baseline fit after the flare
    polynomialOrder: nat,      // order of the quiescent-flux polynomial
    windowLengthHours: real)   // half-width of the detrending window, in hours

  /** 2 cadences per hour, 2 excluded before and 4 after the flare, a cubic
      baseline and a 16.5 h window. The configuration module defines only the
      first three; the image builder also reads a polynomial order and a
      window length from it that it does not define, so the model uses the
      cubic order the second builder hardcodes and the 16.5 h default of the
      localisation entry point. */
  const Default := Settings(2, 2, 4, 3, 16.5)
}
